/** The in-place collapse of an absolute path, against a stack of components. */
module PathNormaliser {
  import opened StreamBuffers

  const SLASH: byte := 0x2F
  const DOT: byte := 0x2E

  /** Size of the two scratch buffers, one byte of each for the terminator. */
  const WORK: nat := 256

  // ---- What normalising means ----

  type Name = seq<byte>

  /** Where the first component ends. */
  function NameEnd(s: seq<byte>, i: nat): (r: nat)
    requires i <= |s|
    ensures i <= r <= |s| && SLASH !in s[i..r] && (r < |s| ==> s[r] == SLASH)
    decreases |s| - i
  {
    if i == |s| || s[i] == SLASH then i else NameEnd(s, i + 1)
  }

  function Split(s: seq<byte>): seq<Name>
    decreases |s|
  {
    var n := NameEnd(s, 0);
    if n == |s| then [s] else [s[..n]] + Split(s[n + 1..])
  }

  predicate IsPlain(c: Name) { c != [] && c != [DOT] && c != [DOT, DOT] && SLASH !in c }

  function Push(stack: seq<Name>, c: Name): seq<Name> {
    if c == [] || c == [DOT] then stack
    else if c == [DOT, DOT] then if stack == [] then [] else stack[..|stack| - 1]
    else stack + [c]
  }

  function Fold(stack: seq<Name>, names: seq<Name>): seq<Name>
    decreases |names|
  {
    if names == [] then stack else Fold(Push(stack, names[0]), names[1..])
  }

  /** Each component behind a slash; nothing for the root. */
  function Joined(stack: seq<Name>): seq<byte>
    decreases |stack|
  {
    if stack == [] then [] else Joined(stack[..|stack| - 1]) + [SLASH] + stack[|stack| - 1]
  }

  function Render(stack: seq<Name>): seq<byte> {
    if stack == [] then [SLASH] else Joined(stack)
  }

  /** The normal form of an absolute path. */
  function Normalised(path: seq<byte>): seq<byte>
    requires path != []
  {
    Render(Fold([], Split(path[1..])))
  }

  ghost predicate AllPlain(stack: seq<Name>) { forall i :: 0 <= i < |stack| ==> IsPlain(stack[i]) }

  // ---- Laws of the normal form ----

  lemma SplitSlashless(s: seq<byte>)
    ensures SLASH !in Split(s)[0] && Split(s)[0] == s[..NameEnd(s, 0)]
  {
    var n := NameEnd(s, 0);
    assert s[0..n] == s[..n];
  }

  lemma {:induction false} FoldStaysPlain(stack: seq<Name>, s: seq<byte>)
    requires AllPlain(stack)
    ensures AllPlain(Fold(stack, Split(s)))
    decreases |s|
  {
    var n := NameEnd(s, 0);
    SplitSlashless(s);
    var first := Split(s)[0];
    if n < |s| {
      assert Split(s)[1..] == Split(s[n + 1..]);
      FoldStaysPlain(Push(stack, first), s[n + 1..]);
    } else {
      assert Fold(Push(stack, first), []) == Push(stack, first);
      assert Split(s)[1..] == [];
    }
  }

  lemma {:induction false} FoldNeverGrows(stack: seq<Name>, s: seq<byte>)
    ensures |Joined(Fold(stack, Split(s)))| <= |Joined(stack)| + 1 + |s|
    decreases |s|
  {
    var n := NameEnd(s, 0);
    var first := Split(s)[0];
    PushLength(stack, first);
    if n < |s| {
      assert Split(s)[1..] == Split(s[n + 1..]);
      FoldNeverGrows(Push(stack, first), s[n + 1..]);
    } else {
      assert Split(s)[1..] == [];
      assert Fold(Push(stack, first), []) == Push(stack, first);
    }
  }

  lemma PushLength(stack: seq<Name>, c: Name)
    ensures |Joined(Push(stack, c))| <= |Joined(stack)| + 1 + |c|
  {
    if Push(stack, c) == stack + [c] { assert (stack + [c])[..|stack|] == stack; }
  }

  /** The normal form is never longer than the path. */
  lemma NeverGrows(path: seq<byte>)
    requires path != []
    ensures |Normalised(path)| <= |path|
  {
    FoldNeverGrows([], path[1..]);
  }

  /** No component shortens the path only if every component is kept as it stands. */
  lemma {:induction false} FullFoldKeepsAll(stack: seq<Name>, s: seq<byte>)
    requires |Joined(Fold(stack, Split(s)))| == |Joined(stack)| + 1 + |s|
    ensures Joined(Fold(stack, Split(s))) == Joined(stack) + [SLASH] + s
    decreases |s|
  {
    var n := NameEnd(s, 0);
    var name := s[..n];
    var pushed := Push(stack, name);
    PushLength(stack, name);
    if n < |s| {
      var rest := s[n + 1..];
      MoreNames(stack, s);
      FoldNeverGrows(pushed, rest);
      FullPush(stack, name);
      FullFoldKeepsAll(pushed, rest);
      PutBack(Joined(stack), s, n);
    } else {
      LastName(stack, s);
      FullPush(stack, name);
    }
  }

  lemma MoreNames(stack: seq<Name>, s: seq<byte>)
    requires NameEnd(s, 0) < |s|
    ensures Fold(stack, Split(s)) == Fold(Push(stack, s[..NameEnd(s, 0)]), Split(s[NameEnd(s, 0) + 1..]))
  {
    SplitTail(stack, s);
  }

  lemma LastName(stack: seq<Name>, s: seq<byte>)
    requires NameEnd(s, 0) == |s|
    ensures s[..|s|] == s && Fold(stack, Split(s)) == Push(stack, s)
  {
    SplitTail(stack, s);
    NoMore(Push(stack, s), s[|s|..]);
    assert s[..|s|] == s;
  }

  lemma NoMore(stack: seq<Name>, s: seq<byte>)
    requires s == []
    ensures Fold(stack, Split(s)) == stack
  {
    assert Split(s) == [[]];
    EmptyNameIsNothing(stack);
  }

  lemma PutBack(a: seq<byte>, s: seq<byte>, n: nat)
    requires n < |s| && s[n] == SLASH
    ensures a + [SLASH] + s[..n] + [SLASH] + s[n + 1..] == a + [SLASH] + s
  {
    assert s == s[..n] + [SLASH] + s[n + 1..];
  }

  lemma FullPush(stack: seq<Name>, c: Name)
    requires |Joined(Push(stack, c))| == |Joined(stack)| + 1 + |c|
    ensures Joined(Push(stack, c)) == Joined(stack) + [SLASH] + c
  {
    if c != [] && c != [DOT] && c != [DOT, DOT] { assert (stack + [c])[..|stack|] == stack; }
  }

  /** A path keeps its length only if it is its own normal form. */
  lemma SameLengthIffNormal(path: seq<byte>)
    requires path != [] && path[0] == SLASH
    ensures |Normalised(path)| == |path| <==> Normalised(path) == path
  {
    if |path| > 1 && |Normalised(path)| == |path| {
      FullFoldKeepsAll([], path[1..]);
      assert [SLASH] + path[1..] == path;
    } else if |path| == 1 {
      assert path == [SLASH] && Split(path[1..]) == [[]];
      EmptyNameIsNothing([]);
    }
  }

  /** When the collapse succeeds on an absolute path that leaves room in its buffer: under
      255 bytes always, and from there on unless the first 255 bytes are already normal. */
  lemma RoomToCollapse(s: seq<byte>)
    requires s != [] && s[0] == SLASH
    ensures |s| < WORK - 1 ==> Scratch(s) == s && |Normalised(Scratch(s))| < WORK - 1
    ensures |s| >= WORK - 1 ==>
              (|Normalised(Scratch(s))| < WORK - 1 <==> Normalised(s[..WORK - 1]) != s[..WORK - 1])
  {
    NeverGrows(Scratch(s));
    SameLengthIffNormal(Scratch(s));
  }

  /** A joined stack with one more component after it. */
  function Chain(stack: seq<Name>, c: Name): seq<byte> { Joined(stack) + [SLASH] + c }

  lemma {:induction false} SplitJoined(stack: seq<Name>, c: Name)
    requires AllPlain(stack) && SLASH !in c
    ensures Chain(stack, c) != [] && Chain(stack, c)[0] == SLASH
    ensures Split(Chain(stack, c)[1..]) == stack + [c]
    decreases |stack|
  {
    if stack == [] {
      assert Chain(stack, c)[1..] == c;
      NoSlash(c);
    } else {
      JoinedFront(stack, c);
      SplitJoined(stack[1..], c);
      assert IsPlain(stack[0]);
      SplitBehind(stack[0], Chain(stack, c), Chain(stack[1..], c));
      assert stack + [c] == [stack[0]] + (stack[1..] + [c]);
    }
  }

  lemma SplitBehind(name: Name, s: seq<byte>, rest: seq<byte>)
    requires SLASH !in name && s == [SLASH] + name + rest && rest != [] && rest[0] == SLASH
    ensures Split(s[1..]) == [name] + Split(rest[1..])
  {
    assert s[1..] == name + rest;
    SplitFirst(name, rest);
  }

  lemma {:induction false} JoinedHead(stack: seq<Name>)
    requires stack != []
    ensures Joined(stack) == [SLASH] + stack[0] + Joined(stack[1..])
    decreases |stack|
  {
    var last := |stack| - 1;
    var init, tail := stack[..last], stack[1..];
    if last == 0 {
      JoinedOne(stack);
    } else {
      JoinedHead(init);
      assert tail[..last - 1] == init[1..] && tail[last - 1] == stack[last];
      Regroup([SLASH] + stack[0], Joined(init[1..]), stack[last]);
    }
  }

  lemma JoinedOne(stack: seq<Name>)
    requires |stack| == 1
    ensures Joined(stack) == [SLASH] + stack[0] + Joined(stack[1..])
  {
    assert stack[..0] == [] && stack[1..] == [];
    assert Joined([]) == [];
    assert [] + [SLASH] + stack[0] == [SLASH] + stack[0] + [];
  }

  lemma Regroup(a: seq<byte>, b: seq<byte>, c: seq<byte>)
    ensures a + b + [SLASH] + c == a + (b + [SLASH] + c)
  {
  }

  lemma JoinedFront(stack: seq<Name>, c: Name)
    requires stack != []
    ensures Chain(stack, c) == [SLASH] + stack[0] + Chain(stack[1..], c)
  {
    JoinedHead(stack);
    Regroup([SLASH] + stack[0], Joined(stack[1..]), c);
  }

  lemma NoSlash(c: Name)
    requires SLASH !in c
    ensures NameEnd(c, 0) == |c| && Split(c) == [c]
  {
  }

  lemma {:induction false} NameEndsAt(s: seq<byte>, i: nat, k: nat)
    requires i <= k < |s| && s[k] == SLASH && forall j :: i <= j < k ==> s[j] != SLASH
    ensures NameEnd(s, i) == k
    decreases k - i
  {
    if i == k {
    } else {
      NameEndsAt(s, i + 1, k);
    }
  }

  lemma SplitFirst(c: Name, rest: seq<byte>)
    requires SLASH !in c && rest != [] && rest[0] == SLASH
    ensures Split(c + rest) == [c] + Split(rest[1..])
  {
    NameEndsAt(c + rest, 0, |c|);
    assert (c + rest)[..|c|] == c && (c + rest)[|c| + 1..] == rest[1..];
  }

  lemma {:induction false} FoldPlain(stack: seq<Name>, names: seq<Name>)
    requires AllPlain(names)
    ensures Fold(stack, names) == stack + names
    decreases |names|
  {
    if names == [] {
      assert stack + names == stack;
    } else {
      FoldPlain(Push(stack, names[0]), names[1..]);
      assert stack + [names[0]] + names[1..] == stack + names;
    }
  }

  /** Normalising is idempotent. */
  lemma Idempotent(path: seq<byte>)
    requires path != []
    ensures Normalised(path) != [] && Normalised(path)[0] == SLASH
    ensures Normalised(Normalised(path)) == Normalised(path)
  {
    var stack := Fold([], Split(path[1..]));
    FoldStaysPlain([], path[1..]);
    RenderReads(stack);
  }

  lemma RenderReads(stack: seq<Name>)
    requires AllPlain(stack)
    ensures Render(stack) != [] && Render(stack)[0] == SLASH && Fold([], Split(Render(stack)[1..])) == stack
  {
    if stack == [] {
      assert Render(stack)[1..] == [];
      assert Split([]) == [[]];
      assert Fold([], [[]]) == Fold([], []);
    } else {
      var last := |stack| - 1;
      SplitJoined(stack[..last], stack[last]);
      assert stack[..last] + [stack[last]] == stack;
      FoldPlain([], stack);
      if last > 0 { JoinedFront(stack[..last], stack[last]); } else { assert Joined(stack[..last]) == []; }
    }
  }

  // ---- The rewriting itself ----

  /** A C string in a buffer: the bytes before its first NUL. */
  function CString(a: seq<byte>): (s: seq<byte>)
    requires 0 in a
    ensures |s| < |a| && s == a[..|s|] && 0 !in s && a[|s|] == 0
  {
    if a[0] == 0 then [] else [a[0]] + CString(a[1..])
  }

  lemma {:induction false} CStringIs(a: seq<byte>, n: nat)
    requires n < |a| && a[n] == 0 && 0 !in a[..n]
    ensures 0 in a && CString(a) == a[..n]
    decreases n
  {
    if n == 0 {
    } else {
      var rest := a[1..];
      assert a[..n] == [a[0]] + rest[..n - 1];
      assert rest[n - 1] == a[n] && 0 !in rest[..n - 1] && a[0] != 0;
      CStringIs(rest, n - 1);
    }
  }

  method StrLen(a: array<byte>) returns (n: nat)
    requires 0 in a[..]
    ensures n == |CString(a[..])|
  {
    n := 0;
    while a[n] != 0
      invariant n < a.Length && 0 in a[n..] && 0 !in a[..n]
      decreases a.Length - n
    {
      assert a[n..] == [a[n]] + a[n + 1..];
      assert a[..n + 1] == a[..n] + [a[n]];
      n := n + 1;
    }
    CStringIs(a[..], n);
    assert a[..][..n] == a[..n];
  }

  lemma RootIsShort(stack: seq<Name>)
    requires AllPlain(stack)
    ensures |Render(stack)| <= 1 <==> stack == []
    ensures stack != [] ==> Render(stack) == Joined(stack[..|stack| - 1]) + [SLASH] + stack[|stack| - 1]
  {
    if stack != [] { assert IsPlain(stack[|stack| - 1]); }
  }

  /** Take the last component off the rendered stack, in place. */
  method Pop(out: array<byte>, olen: nat, ghost stack: seq<Name>) returns (n: nat)
    requires AllPlain(stack) && olen <= out.Length && out[..olen] == Render(stack)
    ensures n <= olen && out[..n] == Render(Push(stack, [DOT, DOT]))
  {
    RootIsShort(stack);
    if olen <= 1 { return olen; }
    ghost var last := |stack| - 1;
    ghost var base, name := Joined(stack[..last]), stack[last];
    assert IsPlain(name);
    assert out[..olen] == base + [SLASH] + name;
    assert out[|base|] == out[..olen][|base|] == SLASH;
    forall k | |base| + 1 <= k < olen ensures out[k] != SLASH {
      assert out[k] == out[..olen][k] == name[k - |base| - 1] && name[k - |base| - 1] in name;
    }
    n := olen - 1;
    while n > 1 && out[n - 1] != SLASH
      invariant |base| + 1 <= n < olen
    {
      n := n - 1;
    }
    assert out[..n] == out[..olen][..n] == base + [SLASH];
    if n > 1 {
      n := n - 1;
      assert out[..n] == out[..n + 1][..n] == base;
    }
  }

  method Append(out: array<byte>, olen: nat, bytes: seq<byte>)
    requires olen + |bytes| <= out.Length
    modifies out
    ensures out[..olen + |bytes|] == old(out[..olen]) + bytes
  {
    var i := 0;
    while i < |bytes|
      invariant i <= |bytes| && out[..olen + i] == old(out[..olen]) + bytes[..i]
    {
      out[olen + i] := bytes[i];
      assert out[..olen + i + 1] == out[..olen + i] + [bytes[i]];
      assert bytes[..i + 1] == bytes[..i] + [bytes[i]];
      i := i + 1;
    }
    assert bytes[..|bytes|] == bytes;
  }

  lemma PushCases(stack: seq<Name>, name: Name)
    requires AllPlain(stack) && SLASH !in name
    ensures AllPlain(Push(stack, name))
    ensures if |name| == 0 || (|name| == 1 && name[0] == DOT) then Push(stack, name) == stack
            else if |name| == 2 && name[0] == DOT && name[1] == DOT then Push(stack, name) == Push(stack, [DOT, DOT])
            else IsPlain(name) && Push(stack, name) == stack + [name] && Render(Push(stack, name)) == Joined(stack + [name])
  {
    if |name| == 1 && name[0] == DOT { assert name == [DOT]; }
    if |name| == 2 && name[0] == DOT && name[1] == DOT { assert name == [DOT, DOT]; }
  }

  /** One component applied to the rendered stack; false when it does not fit. */
  method Take(out: array<byte>, olen: nat, name: Name, ghost stack: seq<Name>) returns (ok: bool, n: nat)
    requires AllPlain(stack) && SLASH !in name && out.Length == WORK
    requires olen < WORK - 1 && out[..olen] == Render(stack)
    modifies out
    ensures AllPlain(Push(stack, name))
    ensures ok <==> |Render(Push(stack, name))| < WORK - 1
    ensures ok ==> n < WORK - 1 && out[..n] == Render(Push(stack, name))
  {
    PushCases(stack, name);
    if |name| == 0 || (|name| == 1 && name[0] == DOT) { return true, olen; }
    if |name| == 2 && name[0] == DOT && name[1] == DOT {
      n := Pop(out, olen, stack);
      return true, n;
    }
    ok, n := Add(out, olen, name, stack);
  }

  method Add(out: array<byte>, olen: nat, name: Name, ghost stack: seq<Name>) returns (ok: bool, n: nat)
    requires AllPlain(stack) && IsPlain(name) && out.Length == WORK
    requires olen < WORK - 1 && out[..olen] == Render(stack)
    modifies out
    ensures ok <==> |Joined(stack + [name])| < WORK - 1
    ensures ok ==> n < WORK - 1 && out[..n] == Joined(stack + [name])
  {
    RootIsShort(stack);
    ghost var base := Joined(stack);
    assert Joined(stack + [name]) == base + [SLASH] + name by { assert (stack + [name])[..|stack|] == stack; }
    n := olen;
    if n > 1 {
      if n + 1 >= WORK { return false, n; }
      Append(out, n, [SLASH]);
      n := n + 1;
    }
    assert out[..n] == base + [SLASH];
    if n + |name| + 1 >= WORK { return false, n; }
    Append(out, n, name);
    n := n + |name|;
    ok := true;
  }

  lemma SplitTail(stack: seq<Name>, s: seq<byte>)
    ensures var n := NameEnd(s, 0);
            Fold(stack, Split(s)) == Fold(Push(stack, s[..n]), Split(s[if n < |s| then n + 1 else n..]))
  {
    var n := NameEnd(s, 0);
    if n == |s| {
      assert s[..n] == s && s[n..] == [];
      assert Split([]) == [[]];
      assert Fold(stack, [s]) == Fold(Push(stack, s), []) by { assert [s][1..] == []; }
      EmptyNameIsNothing(Push(stack, s));
    } else {
      assert Split(s)[1..] == Split(s[n + 1..]);
    }
  }

  lemma EmptyNameIsNothing(stack: seq<Name>)
    ensures Fold(stack, [[]]) == stack
  {
    var empty: seq<Name> := [[]];
    assert empty[1..] == [];
    assert Fold(Push(stack, empty[0]), empty[1..]) == stack;
  }

  lemma LeadingSlash(stack: seq<Name>, s: seq<byte>)
    requires s != [] && s[0] == SLASH
    ensures Fold(stack, Split(s)) == Fold(stack, Split(s[1..]))
  {
    assert NameEnd(s, 0) == 0;
    SplitTail(stack, s);
  }

  /** Past the component at `tok`. */
  method NameFrom(work: seq<byte>, tok: nat) returns (end: nat)
    requires tok < |work|
    ensures tok <= end <= |work| && end - tok == NameEnd(work[tok..], 0) && SLASH !in work[tok..end]
  {
    end := tok;
    while end < |work| && work[end] != SLASH
      invariant tok <= end <= |work| && NameEnd(work[tok..], 0) == NameEnd(work[tok..], end - tok)
    {
      end := end + 1;
    }
    assert work[tok..][0..end - tok] == work[tok..end];
  }

  /** Past the slashes after it. */
  method SkipSlashes(work: seq<byte>, end: nat, ghost stack: seq<Name>) returns (p: nat)
    requires end <= |work|
    ensures end <= p <= |work| && (end < |work| && work[end] == SLASH ==> end < p)
    ensures Fold(stack, Split(work[p..])) == Fold(stack, Split(work[end..]))
  {
    p := end;
    ghost var all := Fold(stack, Split(work[end..]));
    while p < |work| && work[p] == SLASH
      invariant end <= p <= |work| && Fold(stack, Split(work[p..])) == all
    {
      SlashSkipped(work, p, stack);
      p := p + 1;
    }
  }

  lemma SlashSkipped(work: seq<byte>, p: nat, stack: seq<Name>)
    requires p < |work| && work[p] == SLASH
    ensures Fold(stack, Split(work[p..])) == Fold(stack, Split(work[p + 1..]))
  {
    LeadingSlash(stack, work[p..]);
    assert work[p..][1..] == work[p + 1..];
  }

  method NextName(work: seq<byte>, tok: nat, ghost stack: seq<Name>) returns (end: nat, p: nat)
    requires tok < |work|
    ensures tok <= end <= p <= |work| && SLASH !in work[tok..end] && tok < p
    ensures end < |work| ==> end < p
    ensures Fold(stack, Split(work[tok..])) == Fold(Push(stack, work[tok..end]), Split(work[p..]))
  {
    end := NameFrom(work, tok);
    assert end < |work| ==> work[end] == work[tok..][end - tok] == SLASH;
    p := SkipSlashes(work, end, Push(stack, work[tok..end]));
    NameTaken(work, tok, end, stack);
  }

  lemma NameTaken(work: seq<byte>, tok: nat, end: nat, stack: seq<Name>)
    requires tok <= end <= |work| && end - tok == NameEnd(work[tok..], 0)
    ensures Fold(stack, Split(work[tok..])) == Fold(Push(stack, work[tok..end]), Split(work[end..]))
  {
    var s := work[tok..];
    SplitTail(stack, s);
    assert s[..end - tok] == work[tok..end];
    assert s[end - tok..] == work[end..];
    if end < |work| {
      assert s[end - tok + 1..] == work[end..][1..];
      LeadingSlash(Push(stack, work[tok..end]), work[end..]);
    }
  }

  /** What the collapse works on: the path, cut to fit the scratch buffer. */
  function Scratch(s: seq<byte>): seq<byte> { s[..Min(|s|, WORK - 1)] }

  /** The main loop: the rendered stack of all components, or false when it grew to fill
      the buffer, which only a path of 255 bytes that is already normal can do. */
  method Collapsed(work: seq<byte>) returns (ok: bool, out: array<byte>, olen: nat)
    requires 0 < |work| < WORK && work[0] == SLASH
    ensures fresh(out) && out.Length == WORK
    ensures ok <==> |Normalised(work)| < WORK - 1
    ensures ok ==> olen < WORK - 1 && out[..olen] == Normalised(work)
  {
    out := new byte[WORK];
    out[0] := SLASH;
    olen := 1;
    ghost var stack: seq<Name> := [];
    var p := 1;
    while p < |work|
      invariant 1 <= p <= |work| && AllPlain(stack) && olen < WORK - 1 && out[..olen] == Render(stack)
      invariant |Joined(stack)| <= p && (p < |work| ==> |Joined(stack)| < p)
      invariant Fold(stack, Split(work[p..])) == Fold([], Split(work[1..]))
      decreases |work| - p
    {
      var end, next := NextName(work, p, stack);
      ok, olen := Take(out, olen, work[p..end], stack);
      PushLength(stack, work[p..end]);
      stack := Push(stack, work[p..end]);
      p := next;
      if !ok {
        RootIsShort(stack);
        assert p == |work|;
        EndOfPath(stack, work, p);
        return;
      }
    }
    EndOfPath(stack, work, p);
    ok := true;
  }

  lemma EndOfPath(stack: seq<Name>, work: seq<byte>, p: nat)
    requires 0 < |work| == p
    ensures Fold(stack, Split(work[p..])) == stack
  {
    assert work[p..] == [] && Split([]) == [[]];
    EmptyNameIsNothing(stack);
  }

  ghost predicate NulFree(stack: seq<Name>) { forall i :: 0 <= i < |stack| ==> 0 !in stack[i] }

  lemma {:induction false} FoldNulFree(stack: seq<Name>, s: seq<byte>)
    requires NulFree(stack) && 0 !in s
    ensures NulFree(Fold(stack, Split(s)))
    decreases |s|
  {
    var n := NameEnd(s, 0);
    SplitTail(stack, s);
    if n < |s| {
      FoldNulFree(Push(stack, s[..n]), s[n + 1..]);
    } else {
      assert s[n..] == [] && Split([]) == [[]];
      EmptyNameIsNothing(Push(stack, s[..n]));
    }
  }

  lemma {:induction false} JoinedNulFree(stack: seq<Name>)
    requires NulFree(stack)
    ensures 0 !in Joined(stack)
    decreases |stack|
  {
    if stack == [] {
    } else {
      JoinedNulFree(stack[..|stack| - 1]);
    }
  }

  lemma NoNul(path: seq<byte>)
    requires path != [] && 0 !in path
    ensures 0 !in Normalised(path)
  {
    FoldNulFree([], path[1..]);
    JoinedNulFree(Fold([], Split(path[1..])));
  }

  /** cliCollapseAbsolute. */
  method Collapse(path: array<byte>, cap: nat) returns (ok: bool)
    requires 0 in path[..] && cap <= path.Length
    modifies path
    ensures var s := old(CString(path[..]));
            && (ok <==> s != [] && s[0] == SLASH && |s| < cap && |Normalised(Scratch(s))| < WORK - 1)
            && (ok ==> 0 in path[..] && CString(path[..]) == Normalised(Scratch(s)))
    ensures !ok ==> path[..] == old(path[..])
  {
    ghost var s := CString(path[..]);
    var inLen := StrLen(path);
    if inLen == 0 || path[0] != SLASH || inLen >= cap { return false; }
    var work := path[..Min(inLen, WORK - 1)];
    assert work == Scratch(s);
    var done, out, olen := Collapsed(work);
    if !done { return false; }
    NeverGrows(work);
    if olen + 1 > cap { return false; }
    NoNul(work);
    Append(path, 0, out[..olen]);
    path[olen] := 0;
    assert path[..olen] == out[..olen];
    assert path[..][..olen] == path[..olen];
    CStringIs(path[..], olen);
    ok := true;
  }
}
