/** The console's inbound byte path: the trigger sniffer of a claimed port stacked on the
    framed-RPC sniffer, both withholding bytes they may have to give back.

    The functions give the effect of one byte or one timeout; `SerialConsole` is the same
    path as the firmware has it, fields updated per byte, proved equal to the functions.
    Whether the allocator has room, whether the handler accepts an attach and when the
    assembly timeout expires are parameters.
  */
module Sniffer {
  import opened StreamBuffers

  const MAGIC: seq<byte> := [0xF5, 0x53, 0x47, 0x01]

  datatype Phase = Preamble | Header | Body | Discard

  /** What the RPC side answers: a command to run, or an empty frame answered empty. */
  datatype Served = Command(id: byte, cmd: seq<byte>) | EmptyReply(id: byte)

  datatype Serial = Serial(
    phase: Phase,
    matched: nat,            // magic bytes agreed, and withheld
    head: seq<byte>,         // header bytes collected
    id: byte,
    want: nat,
    got: nat,
    cmd: seq<byte>,          // payload collected
    trigMatched: nat,        // trigger bytes agreed, and withheld
    console: seq<byte>,      // every byte given to the console
    served: seq<Served>,
    framed: bool,            // the magic has completed at least once
    attached: bool)          // a handler took the port

  const IDLE: Serial := Serial(Preamble, 0, [], 0, 0, 0, [], 0, [], [], false, false)

  predicate WellFormed(trig: seq<byte>, s: Serial) {
    && s.matched <= |MAGIC| && (s.phase.Preamble? ==> s.matched < |MAGIC|)
    && (s.phase.Header? ==> |s.head| < 3)
    && (s.phase.Body? ==> s.got == |s.cmd| < s.want)
    && (trig != [] ==> s.trigMatched < |trig|)
    && (trig == [] ==> s.trigMatched == 0)
  }

  predicate Assembling(s: Serial) { !s.phase.Preamble? || s.matched != 0 }

  function Reset(s: Serial): Serial {
    s.(phase := Preamble, matched := 0, head := [], want := 0, got := 0, cmd := [])
  }

  // ---- The RPC sniffer ----

  /** One byte to the frame machine; the flag says whether the byte was the frame's. */
  function RpcFeed(s: Serial, b: byte, room: bool): (Serial, bool)
    requires s.matched <= |MAGIC| && (s.phase.Preamble? ==> s.matched < |MAGIC|)
    requires s.phase.Header? ==> |s.head| < 3
  {
    match s.phase
    case Preamble =>
      if b == MAGIC[s.matched] then
        if s.matched + 1 == |MAGIC| then
          (s.(phase := Header, matched := s.matched + 1, head := [], framed := true), true)
        else (s.(matched := s.matched + 1), true)
      else
        var s1 := s.(matched := 0, console := s.console + MAGIC[..s.matched]);
        if b == MAGIC[0] then (s1.(matched := 1), true) else (s1, false)
    case Header =>
      var head := s.head + [b];
      if |head| < 3 then (s.(head := head), true)
      else
        var want := head[1] as int * 256 + head[2] as int;
        var s1 := s.(head := head, id := head[0], want := want, got := 0);
        if want == 0 then (Reset(s1.(served := s.served + [EmptyReply(head[0])])), true)
        else (s1.(phase := if room then Body else Discard, cmd := []), true)
    case Body =>
      var cmd := s.cmd + [b];
      if s.got + 1 < s.want then (s.(cmd := cmd, got := s.got + 1), true)
      else (Reset(s.(served := s.served + [Command(s.id, cmd)])), true)
    case Discard =>
      if s.got + 1 >= s.want then (Reset(s), true) else (s.(got := s.got + 1), true)
  }

  function ConsoleByte(s: Serial, b: byte, room: bool): Serial
    requires s.matched <= |MAGIC| && (s.phase.Preamble? ==> s.matched < |MAGIC|)
    requires s.phase.Header? ==> |s.head| < 3
  {
    var (s1, mine) := RpcFeed(s, b, room);
    if mine then s1 else s1.(console := s1.console + [b])
  }

  lemma ConsoleByteWellFormed(trig: seq<byte>, s: Serial, b: byte, room: bool)
    requires WellFormed(trig, s)
    ensures WellFormed(trig, ConsoleByte(s, b, room))
    ensures ConsoleByte(s, b, room).trigMatched == s.trigMatched && ConsoleByte(s, b, room).attached == s.attached
    ensures s.framed ==> ConsoleByte(s, b, room).framed
  {
    match s.phase
    case Preamble => PreambleWellFormed(trig, s, b, room);
    case Header => HeaderWellFormed(trig, s, b, room);
    case _ => PayloadWellFormed(trig, s, b, room);
  }

  /** The byte leaves the machine well formed, the trigger sniffer alone, and no frame undone. */
  ghost predicate Passes(trig: seq<byte>, s: Serial, s': Serial) {
    WellFormed(trig, s') && s'.trigMatched == s.trigMatched && s'.attached == s.attached && (s.framed ==> s'.framed)
  }

  lemma PreambleWellFormed(trig: seq<byte>, s: Serial, b: byte, room: bool)
    requires WellFormed(trig, s) && s.phase.Preamble?
    ensures Passes(trig, s, ConsoleByte(s, b, room))
  {
  }

  lemma HeaderWellFormed(trig: seq<byte>, s: Serial, b: byte, room: bool)
    requires WellFormed(trig, s) && s.phase.Header?
    ensures Passes(trig, s, ConsoleByte(s, b, room))
  {
  }

  lemma PayloadWellFormed(trig: seq<byte>, s: Serial, b: byte, room: bool)
    requires WellFormed(trig, s) && (s.phase.Body? || s.phase.Discard?)
    ensures Passes(trig, s, ConsoleByte(s, b, room))
  {
  }

  /** Withheld bytes going back through the RPC sniffer, oldest first. */
  function Replay(trig: seq<byte>, s: Serial, bytes: seq<byte>, room: bool): (r: Serial)
    requires WellFormed(trig, s)
    ensures WellFormed(trig, r) && r.trigMatched == s.trigMatched && r.attached == s.attached
    ensures s.framed ==> r.framed
    decreases |bytes|
  {
    if bytes == [] then s
    else
      var last := |bytes| - 1;
      var s1 := Replay(trig, s, bytes[..last], room);
      ConsoleByteWellFormed(trig, s1, bytes[last], room);
      ConsoleByte(s1, bytes[last], room)
  }

  lemma ReplayNext(trig: seq<byte>, s: Serial, i: nat, room: bool)
    requires WellFormed(trig, s) && i < |trig|
    ensures Replay(trig, s, trig[..i + 1], room) == ConsoleByte(Replay(trig, s, trig[..i], room), trig[i], room)
  {
    assert trig[..i + 1][..i] == trig[..i];
  }

  // ---- The trigger sniffer, and the timeout ----

  /** One byte to the trigger sniffer; the flag says whether it kept the byte. */
  function TriggerFeed(trig: seq<byte>, s: Serial, c: byte, room: bool, accept: bool): (r: (Serial, bool))
    requires WellFormed(trig, s)
    ensures WellFormed(trig, r.0) && (s.framed ==> r.0.framed) && (s.attached ==> r.0.attached)
  {
    if trig == [] || Assembling(s) then (s, false)
    else
      var n := s.trigMatched;
      var s0 := s.(trigMatched := 0);
      if c == trig[n] then
        if n + 1 < |trig| then (s.(trigMatched := n + 1), true)
        else if accept then (s0.(attached := true), true)
        else (Replay(trig, s0, trig[..n], room), false)
      else if n > 0 then
        var s1 := Replay(trig, s0, trig[..n], room);
        if c == trig[0] then (s1.(trigMatched := 1), true) else (s1, false)
      else (s, false)
  }

  function HandleChar(trig: seq<byte>, s: Serial, c: byte, room: bool, accept: bool): (r: Serial)
    requires WellFormed(trig, s)
    ensures WellFormed(trig, r) && (s.framed ==> r.framed) && (s.attached ==> r.attached)
  {
    var (s1, taken) := TriggerFeed(trig, s, c, room, accept);
    ConsoleByteWellFormed(trig, s1, c, room);
    if taken then s1 else ConsoleByte(s1, c, room)
  }

  /** The assembly timeout has expired. */
  function Expire(s: Serial): Serial
    requires s.matched <= |MAGIC|
  {
    if !Assembling(s) then s
    else Reset(s).(console := s.console + if s.phase.Preamble? then MAGIC[..s.matched] else [])
  }

  datatype Event = Arrives(b: byte, room: bool, accept: bool) | Expires

  function Step(trig: seq<byte>, s: Serial, e: Event): (r: Serial)
    requires WellFormed(trig, s)
    ensures WellFormed(trig, r) && (s.framed ==> r.framed) && (s.attached ==> r.attached)
  {
    if s.attached then s   // the port's bytes no longer come this way
    else match e
      case Arrives(b, room, accept) => HandleChar(trig, s, b, room, accept)
      case Expires => Expire(s)
  }

  function Run(trig: seq<byte>, s: Serial, events: seq<Event>): (r: Serial)
    requires WellFormed(trig, s)
    ensures WellFormed(trig, r) && (s.framed ==> r.framed) && (s.attached ==> r.attached)
    decreases |events|
  {
    if events == [] then s
    else Step(trig, Run(trig, s, events[..|events| - 1]), events[|events| - 1])
  }

  /** The bytes that arrived. */
  function Input(events: seq<Event>): seq<byte> {
    if events == [] then []
    else Input(events[..|events| - 1]) +
         match events[|events| - 1] { case Arrives(b, _, _) => [b] case Expires => [] }
  }

  // ---- Console transparency ----

  /** Bytes owed to the console. */
  function Withheld(trig: seq<byte>, s: Serial): seq<byte>
    requires WellFormed(trig, s)
  {
    (if s.phase.Preamble? then MAGIC[..s.matched] else []) + trig[..s.trigMatched]
  }

  /** How much of the magic has agreed after these bytes; |MAGIC| once it completed. */
  function Match(m: nat, bytes: seq<byte>): (r: nat)
    requires m <= |MAGIC|
    ensures r <= |MAGIC| && (m == |MAGIC| ==> r == m)
    decreases |bytes|
  {
    if bytes == [] then m
    else
      var k := Match(m, bytes[..|bytes| - 1]);
      if k == |MAGIC| then k
      else if bytes[|bytes| - 1] == MAGIC[k] then k + 1
      else if bytes[|bytes| - 1] == MAGIC[0] then 1 else 0
  }

  /** What the claimant can check beforehand: wherever a partial trigger can break off
      into a fresh one, the part given back leaves no magic half matched. */
  predicate Separable(trig: seq<byte>) {
    forall j :: 1 <= j < |trig| && trig[j] != trig[0] ==> Match(0, trig[..j]) == 0 || Match(0, trig[..j]) == |MAGIC|
  }

  lemma {:induction false} NoLeadByteMatchesNothing(bytes: seq<byte>)
    requires MAGIC[0] !in bytes
    ensures Match(0, bytes) == 0
    decreases |bytes|
  {
    if bytes == [] {
    } else {
      NoLeadByteMatchesNothing(bytes[..|bytes| - 1]);
      assert bytes[|bytes| - 1] in bytes;
    }
  }

  /** In particular any trigger without the byte 0xF5 will do. */
  lemma NoLeadByteIsSeparable(trig: seq<byte>)
    requires MAGIC[0] !in trig
    ensures Separable(trig)
  {
    forall j | 1 <= j < |trig| ensures Match(0, trig[..j]) == 0 { NoLeadByteMatchesNothing(trig[..j]); }
  }

  /** From one state to another the RPC sniffer took these bytes: either they completed the
      magic, or the console and the part still matched account for them all. */
  ghost predicate Kept(s: Serial, s': Serial, bytes: seq<byte>)
    requires s.matched <= |MAGIC| && s'.matched <= |MAGIC|
  {
    && (s'.framed <==> Match(s.matched, bytes) == |MAGIC|)
    && (!s'.framed ==>
          && s'.phase.Preamble? && s'.matched == Match(s.matched, bytes)
          && s'.console + MAGIC[..s'.matched] == s.console + MAGIC[..s.matched] + bytes)
  }

  lemma ByteIsKept(s: Serial, b: byte, room: bool)
    requires s.phase.Preamble? && s.matched < |MAGIC| && !s.framed
    ensures ConsoleByte(s, b, room).matched <= |MAGIC| && Kept(s, ConsoleByte(s, b, room), [b])
  {
    assert [b][..0] == [] && Match(s.matched, []) == s.matched;
    var m := s.matched;
    if b == MAGIC[m] {
      assert MAGIC[..m + 1] == MAGIC[..m] + [b];
      assert s.console + MAGIC[..m + 1] == s.console + MAGIC[..m] + [b];
    } else if b == MAGIC[0] {
      assert MAGIC[..1] == [b];
    } else {
      assert MAGIC[..0] == [];
    }
  }

  lemma KeptOneMore(s: Serial, s1: Serial, s2: Serial, bytes: seq<byte>, b: byte)
    requires s.matched <= |MAGIC| && s1.matched <= |MAGIC| && s2.matched <= |MAGIC|
    requires Kept(s, s1, bytes) && (s1.framed ==> s2.framed) && (!s1.framed ==> Kept(s1, s2, [b]))
    ensures Kept(s, s2, bytes + [b])
  {
    MatchOneMore(s.matched, bytes, b);
    assert s.console + MAGIC[..s.matched] + bytes + [b] == s.console + MAGIC[..s.matched] + (bytes + [b]);
  }

  lemma ByteKeptAfter(s: Serial, s1: Serial, bytes: seq<byte>, b: byte, room: bool)
    requires WellFormed([], s1.(trigMatched := 0)) && s.matched <= |MAGIC| && Kept(s, s1, bytes)
    ensures ConsoleByte(s1, b, room).matched <= |MAGIC| && Kept(s, ConsoleByte(s1, b, room), bytes + [b])
  {
    if !s1.framed { ByteIsKept(s1, b, room); }
    KeptOneMore(s, s1, ConsoleByte(s1, b, room), bytes, b);
  }

  lemma MatchOneMore(m: nat, bytes: seq<byte>, b: byte)
    requires m <= |MAGIC|
    ensures Match(m, bytes + [b]) == Match(Match(m, bytes), [b])
  {
    assert (bytes + [b])[..|bytes|] == bytes && [b][..0] == [];
    assert Match(Match(m, bytes), []) == Match(m, bytes);
  }

  lemma {:induction false} ReplayIsKept(trig: seq<byte>, s: Serial, bytes: seq<byte>, room: bool)
    requires WellFormed(trig, s) && s.phase.Preamble? && !s.framed
    ensures Kept(s, Replay(trig, s, bytes, room), bytes)
    decreases |bytes|
  {
    if bytes == [] {
      assert s.console + MAGIC[..s.matched] + bytes == s.console + MAGIC[..s.matched];
    } else {
      var init, b := bytes[..|bytes| - 1], bytes[|bytes| - 1];
      ReplayIsKept(trig, s, init, room);
      var s1 := Replay(trig, s, init, room);
      ConsoleByteWellFormed(trig, s1, b, room);
      ByteKeptAfter(s, s1, init, b, room);
      assert bytes == init + [b];
    }
  }

  /** Nothing is owed by both sniffers at once, and no frame has opened. */
  ghost predicate Quiet(trig: seq<byte>, s: Serial) {
    WellFormed(trig, s) && s.phase.Preamble? && !s.framed && (s.trigMatched > 0 ==> s.matched == 0)
  }

  function Owing(trig: seq<byte>, s: Serial): seq<byte>
    requires WellFormed(trig, s)
  {
    s.console + Withheld(trig, s)
  }

  /** While quiet, what is owed is what the sniffer that holds anything holds. */
  lemma OwingQuiet(trig: seq<byte>, s: Serial)
    requires Quiet(trig, s)
    ensures s.trigMatched == 0 ==> Owing(trig, s) == s.console + MAGIC[..s.matched]
    ensures s.trigMatched > 0 ==> Owing(trig, s) == s.console + trig[..s.trigMatched]
  {
  }

  lemma CharIsKept(trig: seq<byte>, s: Serial, c: byte, room: bool, accept: bool)
    requires Quiet(trig, s) && Separable(trig)
    ensures var s' := HandleChar(trig, s, c, room, accept);
            !s'.framed && !s'.attached ==> Quiet(trig, s') && Owing(trig, s') == Owing(trig, s) + [c]
  {
    var s' := HandleChar(trig, s, c, room, accept);
    OwingQuiet(trig, s);
    if !s'.framed && !s'.attached {
      if trig == [] || Assembling(s) || (s.trigMatched == 0 && c != trig[0]) {
        ByteIsKept(s, c, room);
        OwingQuiet(trig, s');
      } else if c == trig[s.trigMatched] {
        MatchingByte(trig, s, c, room, accept);
      } else {
        BreakingByte(trig, s, c, room, accept);
      }
    }
  }

  /** The byte extends the trigger, or completes one that is refused. */
  lemma MatchingByte(trig: seq<byte>, s: Serial, c: byte, room: bool, accept: bool)
    requires Quiet(trig, s) && trig != [] && !Assembling(s) && c == trig[s.trigMatched]
    requires var s' := HandleChar(trig, s, c, room, accept); !s'.framed && !s'.attached
    ensures var s' := HandleChar(trig, s, c, room, accept);
            Quiet(trig, s') && Owing(trig, s') == Owing(trig, s) + [c]
  {
    var n := s.trigMatched;
    OwingQuiet(trig, s);
    assert trig[..n + 1] == trig[..n] + [c];
    assert MAGIC[..0] == [];
    assert s.console + [] == s.console;
    assert s.console + (trig[..n] + [c]) == s.console + trig[..n] + [c];
    if n + 1 < |trig| {
      OwingQuiet(trig, s.(trigMatched := n + 1));
    } else {
      GivenBack(trig, s, c, room);
    }
  }

  /** Withheld trigger bytes and the byte after them, all handed on. */
  lemma GivenBack(trig: seq<byte>, s: Serial, c: byte, room: bool)
    requires Quiet(trig, s) && trig != [] && s.matched == 0
    requires !ConsoleByte(Replay(trig, s.(trigMatched := 0), trig[..s.trigMatched], room), c, room).framed
    ensures var s' := ConsoleByte(Replay(trig, s.(trigMatched := 0), trig[..s.trigMatched], room), c, room);
            && WellFormed(trig, s') && Quiet(trig, s')
            && Owing(trig, s') == s.console + trig[..s.trigMatched] + [c]
  {
    var s0 := s.(trigMatched := 0);
    var s1 := Replay(trig, s0, trig[..s.trigMatched], room);
    ReplayIsKept(trig, s0, trig[..s.trigMatched], room);
    ConsoleByteWellFormed(trig, s1, c, room);
    ByteIsKept(s1, c, room);
    OwingQuiet(trig, ConsoleByte(s1, c, room));
    assert MAGIC[..0] == [];
    assert s.console + [] == s.console;
  }

  /** The byte ends a partial trigger, and may open a new one. */
  lemma BreakingByte(trig: seq<byte>, s: Serial, c: byte, room: bool, accept: bool)
    requires Quiet(trig, s) && Separable(trig) && trig != [] && !Assembling(s) && s.trigMatched > 0 && c != trig[s.trigMatched]
    requires var s' := HandleChar(trig, s, c, room, accept); !s'.framed && !s'.attached
    ensures var s' := HandleChar(trig, s, c, room, accept);
            Quiet(trig, s') && Owing(trig, s') == Owing(trig, s) + [c]
  {
    var n := s.trigMatched;
    OwingQuiet(trig, s);
    if c == trig[0] {
      var s0 := s.(trigMatched := 0);
      ReplayIsKept(trig, s0, trig[..n], room);
      assert MAGIC[..0] == [];
      assert s.console + [] == s.console;
      assert trig[..1] == [c];
      OwingQuiet(trig, HandleChar(trig, s, c, room, accept));
    } else {
      GivenBack(trig, s, c, room);
    }
  }

  lemma ExpireIsKept(trig: seq<byte>, s: Serial)
    requires Quiet(trig, s)
    ensures WellFormed(trig, Expire(s)) && Quiet(trig, Expire(s)) && Owing(trig, Expire(s)) == Owing(trig, s)
  {
    if Assembling(s) {
      assert s.console + MAGIC[..s.matched] + MAGIC[..0] == s.console + MAGIC[..s.matched];
      OwingQuiet(trig, s);
      OwingQuiet(trig, Expire(s));
    }
  }

  lemma {:induction false} QuietRun(trig: seq<byte>, events: seq<Event>)
    requires Separable(trig)
    ensures var s := Run(trig, IDLE, events);
            !s.framed && !s.attached ==> Quiet(trig, s) && Owing(trig, s) == Input(events)
    decreases |events|
  {
    if events == [] {
      OwingQuiet(trig, IDLE);
      assert Owing(trig, IDLE) == [];
    } else {
      var init, e := events[..|events| - 1], events[|events| - 1];
      QuietRun(trig, init);
      var s := Run(trig, IDLE, init);
      if !s.attached && !s.framed {
        match e
        case Arrives(b, room, accept) => CharIsKept(trig, s, b, room, accept);
        case Expires => ExpireIsKept(trig, s);
      }
    }
  }

  /** Until a frame opens or a handler attaches, the console has every byte that arrived,
      in order, except those still withheld at the end. */
  ghost predicate Transparent(trig: seq<byte>) {
    forall events ::
      var s := Run(trig, IDLE, events);
      !s.framed && !s.attached ==> s.console + Withheld(trig, s) == Input(events)
  }

  /** Exactly the separable triggers keep the console transparent. */
  lemma TransparencyIffSeparable(trig: seq<byte>)
    ensures Transparent(trig) <==> Separable(trig)
  {
    if Separable(trig) {
      forall events
        ensures var s := Run(trig, IDLE, events);
                !s.framed && !s.attached ==> s.console + Withheld(trig, s) == Input(events)
      {
        QuietRun(trig, events);
      }
    } else {
      var j :| 1 <= j < |trig| && trig[j] != trig[0] && !(Match(0, trig[..j]) == 0 || Match(0, trig[..j]) == |MAGIC|);
      BreaksTransparency(trig, j);
    }
  }

  function Typed(bytes: seq<byte>): (r: seq<Event>)
    ensures |r| == |bytes| && forall i :: 0 <= i < |r| ==> r[i] == Arrives(bytes[i], false, false)
  {
    seq(|bytes|, i requires 0 <= i < |bytes| => Arrives(bytes[i], false, false))
  }

  lemma TypedOneMore(trig: seq<byte>, bytes: seq<byte>, b: byte)
    ensures Run(trig, IDLE, Typed(bytes + [b])) == Step(trig, Run(trig, IDLE, Typed(bytes)), Arrives(b, false, false))
    ensures Input(Typed(bytes + [b])) == Input(Typed(bytes)) + [b]
  {
    var events := Typed(bytes + [b]);
    assert events[..|events| - 1] == Typed(bytes);
  }

  lemma {:induction false} TriggerPrefix(trig: seq<byte>, j: nat)
    requires j < |trig|
    ensures Run(trig, IDLE, Typed(trig[..j])) == IDLE.(trigMatched := j) && Input(Typed(trig[..j])) == trig[..j]
  {
    if j == 0 {
    } else {
      TriggerPrefix(trig, j - 1);
      assert trig[..j] == trig[..j - 1] + [trig[j - 1]];
      TypedOneMore(trig, trig[..j - 1], trig[j - 1]);
    }
  }

  /** Where a partial trigger broke off into a fresh one, both sniffers hold something. */
  lemma BothHold(trig: seq<byte>, j: nat)
    requires 1 <= j < |trig| && trig[j] != trig[0] && 0 < Match(0, trig[..j]) < |MAGIC|
    ensures var bytes := trig[..j] + [trig[0]];
            var s := Run(trig, IDLE, Typed(bytes));
            && s.phase.Preamble? && s.matched == Match(0, trig[..j]) && s.trigMatched == 1 && !s.framed && !s.attached
            && Input(Typed(bytes)) == bytes
  {
    TriggerPrefix(trig, j);
    ReplayIsKept(trig, IDLE, trig[..j], false);
    TypedOneMore(trig, trig[..j], trig[0]);
  }

  /** The failing input: part of the trigger, its first byte again, and one more byte,
      which overtakes the withheld first byte. */
  lemma BreaksTransparency(trig: seq<byte>, j: nat)
    requires 1 <= j < |trig| && trig[j] != trig[0] && 0 < Match(0, trig[..j]) < |MAGIC|
    ensures !Transparent(trig)
  {
    var b: byte := if trig[0] == 0 then 2 else 0;
    var bytes := trig[..j] + [trig[0]];
    BothHold(trig, j);
    OvertakenRun(trig, bytes, b);
    NotInOrder(trig, Typed(bytes + [b]), bytes, b);
  }

  /** One more byte, where both sniffers hold something. */
  lemma OvertakenRun(trig: seq<byte>, bytes: seq<byte>, b: byte)
    requires |trig| > 1 && b !in MAGIC && b != trig[0] && Input(Typed(bytes)) == bytes
    requires var s := Run(trig, IDLE, Typed(bytes));
             s.phase.Preamble? && s.matched > 0 && s.trigMatched == 1 && !s.framed && !s.attached
    ensures var s := Run(trig, IDLE, Typed(bytes + [b]));
            !s.framed && !s.attached && |Owing(trig, s)| > 0 && Owing(trig, s)[|Owing(trig, s)| - 1] != b
    ensures Input(Typed(bytes + [b])) == bytes + [b]
  {
    TypedOneMore(trig, bytes, b);
    Overtaken(trig, Run(trig, IDLE, Typed(bytes)), b);
  }

  /** What is owed ends in a byte other than the last one that arrived. */
  lemma NotInOrder(trig: seq<byte>, events: seq<Event>, bytes: seq<byte>, b: byte)
    requires var s := Run(trig, IDLE, events);
             && !s.framed && !s.attached && |Owing(trig, s)| > 0 && Owing(trig, s)[|Owing(trig, s)| - 1] != b
    requires Input(events) == bytes + [b]
    ensures !Transparent(trig)
  {
    var out := Owing(trig, Run(trig, IDLE, events));
    assert out != bytes + [b] by { assert (bytes + [b])[|bytes + [b]| - 1] == b; }
  }

  /** There are such triggers: the lead byte of the magic and any byte it does not begin. */
  lemma LeadByteTriggerBreaks()
    ensures !Separable([0xF5, 0x00]) && !Transparent([0xF5, 0x00])
  {
    var trig: seq<byte> := [0xF5, 0x00];
    assert trig[..1] == [0xF5] && trig[..1][..0] == [];
    assert Match(0, []) == 0 && Match(0, trig[..1]) == 1;
    BreaksTransparency(trig, 1);
  }

  lemma Overtaken(trig: seq<byte>, s: Serial, b: byte)
    requires WellFormed(trig, s) && |trig| > 1 && b !in MAGIC
    requires s.phase.Preamble? && s.matched > 0 && s.trigMatched == 1 && !s.framed && !s.attached
    ensures var s' := Step(trig, s, Arrives(b, false, false));
            && !s'.framed && !s'.attached
            && |Owing(trig, s')| > 0 && Owing(trig, s')[|Owing(trig, s')| - 1] == trig[0]
  {
    assert MAGIC[s.matched] in MAGIC && MAGIC[0] in MAGIC;
  }

  // ---- Frames and text on one stream ----

  /** A frame as rpcReply lays it out, and as the host sends one. */
  function FrameBytes(id: byte, payload: seq<byte>): seq<byte>
    requires |payload| <= 0xFFFF
  {
    MAGIC + [id, (|payload| / 256) as byte, (|payload| % 256) as byte] + payload
  }

  /** Between frames. */
  ghost predicate AtRest(s: Serial) { s == Reset(s) && WellFormed([], s) }

  lemma {:induction false} ReplayConcat(s: Serial, a: seq<byte>, b: seq<byte>, room: bool)
    requires WellFormed([], s)
    ensures Replay([], s, a + b, room) == Replay([], Replay([], s, a, room), b, room)
    decreases |b|
  {
    if b == [] {
      assert a + b == a;
    } else {
      var last := |b| - 1;
      assert (a + b)[..|a + b| - 1] == a + b[..last];
      ReplayConcat(s, a, b[..last], room);
    }
  }

  lemma ReplayOneMore(s: Serial, bytes: seq<byte>, b: byte, room: bool)
    requires WellFormed([], s)
    ensures Replay([], s, bytes + [b], room) == ConsoleByte(Replay([], s, bytes, room), b, room)
  {
    assert (bytes + [b])[..|bytes|] == bytes;
  }

  lemma {:induction false} TextPasses(s: Serial, text: seq<byte>, room: bool)
    requires AtRest(s) && MAGIC[0] !in text
    ensures Replay([], s, text, room) == s.(console := s.console + text)
    decreases |text|
  {
    if text == [] {
      assert s.console + text == s.console;
    } else {
      var init, b := text[..|text| - 1], text[|text| - 1];
      assert text == init + [b] && b in text;
      TextPasses(s, init, room);
      ReplayOneMore(s, init, b, room);
      assert s.console + init + MAGIC[..0] + [b] == s.console + text;
    }
  }

  lemma {:induction false} MagicOpens(s: Serial, k: nat, room: bool)
    requires AtRest(s) && k <= |MAGIC|
    ensures Replay([], s, MAGIC[..k], room) ==
            if k < |MAGIC| then s.(matched := k) else s.(matched := k, phase := Header, framed := true)
  {
    if k == 0 {
    } else {
      MagicOpens(s, k - 1, room);
      assert MAGIC[..k] == MAGIC[..k - 1] + [MAGIC[k - 1]];
      ReplayOneMore(s, MAGIC[..k - 1], MAGIC[k - 1], room);
    }
  }

  lemma HeaderIsTaken(s: Serial, id: byte, hi: byte, lo: byte, room: bool)
    requires WellFormed([], s) && s.phase.Header? && s.head == []
    ensures Replay([], s, [id, hi, lo], room) == ConsoleByte(s.(head := [id, hi]), lo, room)
  {
    ReplayOneMore(s, [], id, room);
    ReplayOneMore(s, [id], hi, room);
    ReplayOneMore(s, [id, hi], lo, room);
    assert [] + [id] == [id] && [id] + [hi] == [id, hi] && [id, hi] + [lo] == [id, hi, lo];
  }

  /** The first k bytes of a payload being collected, or swallowed. */
  lemma {:induction false} PayloadIsTaken(s: Serial, payload: seq<byte>, k: nat, room: bool)
    requires WellFormed([], s) && s.got == 0 && s.want == |payload| > k
    requires s.phase == (if room then Body else Discard) && s.cmd == []
    ensures Replay([], s, payload[..k], room) == s.(got := k, cmd := if room then payload[..k] else [])
  {
    if k == 0 {
    } else {
      PayloadIsTaken(s, payload, k - 1, room);
      PayloadByte(s, payload, k, room);
      TakenOneMore(s, payload, k, room);
    }
  }

  lemma TakenOneMore(s: Serial, payload: seq<byte>, k: nat, room: bool)
    requires WellFormed([], s) && 0 < k <= |payload|
    ensures Replay([], s, payload[..k], room) == ConsoleByte(Replay([], s, payload[..k - 1], room), payload[k - 1], room)
  {
    assert payload[..k] == payload[..k - 1] + [payload[k - 1]];
    ReplayOneMore(s, payload[..k - 1], payload[k - 1], room);
  }

  lemma PayloadByte(s: Serial, payload: seq<byte>, k: nat, room: bool)
    requires 0 < k < |payload| == s.want && s.phase == (if room then Body else Discard) && s.matched <= |MAGIC|
    ensures ConsoleByte(s.(got := k - 1, cmd := if room then payload[..k - 1] else []), payload[k - 1], room) ==
            s.(got := k, cmd := if room then payload[..k] else [])
  {
    assert payload[..k] == payload[..k - 1] + [payload[k - 1]];
  }

  function Answer(id: byte, payload: seq<byte>, room: bool): seq<Served> {
    if payload == [] then [EmptyReply(id)] else if room then [Command(id, payload)] else []
  }

  /** A whole frame is decoded to its id and payload, and none of it reaches the console.
      Without room for the payload it is swallowed whole. */
  lemma FrameDecodes(s: Serial, id: byte, payload: seq<byte>, room: bool)
    requires AtRest(s) && |payload| <= 0xFFFF
    ensures var s' := Replay([], s, FrameBytes(id, payload), room);
            && AtRest(s') && s'.console == s.console && s'.framed && s'.attached == s.attached
            && s'.served == s.served + Answer(id, payload, room)
  {
    var hi, lo := (|payload| / 256) as byte, (|payload| % 256) as byte;
    assert MAGIC[..4] == MAGIC;
    MagicOpens(s, 4, room);
    var s1 := s.(matched := 4, phase := Header, framed := true);
    HeaderIsTaken(s1, id, hi, lo, room);
    ReplayConcat(s, MAGIC, [id, hi, lo], room);
    ReplayConcat(s, MAGIC + [id, hi, lo], payload, room);
    if payload == [] {
      assert Replay([], s, FrameBytes(id, payload), room) == Replay([], s1, [id, hi, lo], room);
    } else {
      BodyDecodes(ConsoleByte(s1.(head := [id, hi]), lo, room), payload, room);
    }
  }

  lemma BodyDecodes(s: Serial, payload: seq<byte>, room: bool)
    requires WellFormed([], s) && s.got == 0 && s.want == |payload| > 0
    requires s.phase == (if room then Body else Discard) && s.cmd == []
    ensures Replay([], s, payload, room) == Reset(s.(served := s.served + Answer(s.id, payload, room)))
  {
    var k := |payload| - 1;
    assert payload == payload[..k] + [payload[k]];
    PayloadIsTaken(s, payload, k, room);
    ReplayOneMore(s, payload[..k], payload[k], room);
    LastByte(s, s.(got := k, cmd := if room then payload[..k] else []), payload, room);
  }

  lemma LastByte(s: Serial, s1: Serial, payload: seq<byte>, room: bool)
    requires |payload| > 0 && s.want == |payload| && s.phase == (if room then Body else Discard)
    requires s1 == s.(got := |payload| - 1, cmd := if room then payload[..|payload| - 1] else [])
    requires s.matched <= |MAGIC|
    ensures ConsoleByte(s1, payload[|payload| - 1], room) == Reset(s.(served := s.served + Answer(s.id, payload, room)))
  {
    assert payload[..|payload| - 1] + [payload[|payload| - 1]] == payload;
    assert s.served + [] == s.served;
  }

  datatype Piece = Text(text: seq<byte>) | Frame(id: byte, payload: seq<byte>)

  ghost predicate Sendable(p: Piece) {
    match p
    case Text(text) => MAGIC[0] !in text
    case Frame(_, payload) => |payload| <= 0xFFFF
  }

  ghost function Stream(pieces: seq<Piece>): seq<byte>
    requires forall i :: 0 <= i < |pieces| ==> Sendable(pieces[i])
  {
    if pieces == [] then []
    else
      var last := pieces[|pieces| - 1];
      assert Sendable(last);
      Stream(pieces[..|pieces| - 1]) + if last.Text? then last.text else FrameBytes(last.id, last.payload)
  }

  function Texts(pieces: seq<Piece>): seq<byte> {
    if pieces == [] then []
    else
      var last := pieces[|pieces| - 1];
      Texts(pieces[..|pieces| - 1]) + if last.Text? then last.text else []
  }

  function Answers(pieces: seq<Piece>): seq<Served> {
    if pieces == [] then []
    else
      var last := pieces[|pieces| - 1];
      Answers(pieces[..|pieces| - 1]) + if last.Frame? then Answer(last.id, last.payload, true) else []
  }

  /** Any mix of text without the lead byte and frames: every frame is answered in order
      and the console gets exactly the text. */
  lemma {:induction false} MixedStreamDecodes(pieces: seq<Piece>)
    requires forall i :: 0 <= i < |pieces| ==> Sendable(pieces[i])
    ensures var s := Replay([], IDLE, Stream(pieces), true);
            AtRest(s) && !s.attached && s.console == Texts(pieces) && s.served == Answers(pieces)
    decreases |pieces|
  {
    if pieces == [] {
    } else {
      var init, last := pieces[..|pieces| - 1], pieces[|pieces| - 1];
      MixedStreamDecodes(init);
      var s := Replay([], IDLE, Stream(init), true);
      match last {
        case Text(text) =>
          ReplayConcat(IDLE, Stream(init), text, true);
          TextPasses(s, text, true);
          assert Answers(init) + [] == Answers(init);
        case Frame(id, payload) =>
          ReplayConcat(IDLE, Stream(init), FrameBytes(id, payload), true);
          FrameDecodes(s, id, payload, true);
          assert Texts(init) + [] == Texts(init);
      }
    }
  }

  /** Without a claim the whole path is the RPC sniffer. */
  lemma {:induction false} UnclaimedRun(bytes: seq<byte>, events: seq<Event>)
    requires |events| == |bytes| && forall i :: 0 <= i < |bytes| ==> events[i] == Arrives(bytes[i], true, false)
    ensures Run([], IDLE, events) == Replay([], IDLE, bytes, true)
    decreases |bytes|
  {
    if bytes == [] {
    } else {
      UnclaimedRun(bytes[..|bytes| - 1], events[..|events| - 1]);
    }
  }

  // ---- The same stream on a claimed port ----

  /** Bytes arriving at a port whose handler refuses to attach, the allocator having room. */
  function Refused(bytes: seq<byte>): (r: seq<Event>)
    ensures |r| == |bytes| && forall i :: 0 <= i < |r| ==> r[i] == Arrives(bytes[i], true, false)
  {
    seq(|bytes|, i requires 0 <= i < |bytes| => Arrives(bytes[i], true, false))
  }

  function Fed(trig: seq<byte>, s: Serial, bytes: seq<byte>): (r: Serial)
    requires WellFormed(trig, s)
    ensures WellFormed(trig, r)
  {
    Run(trig, s, Refused(bytes))
  }

  lemma FedOneMore(trig: seq<byte>, s: Serial, bytes: seq<byte>, b: byte)
    requires WellFormed(trig, s)
    ensures Fed(trig, s, bytes + [b]) == Step(trig, Fed(trig, s, bytes), Arrives(b, true, false))
  {
    var events := Refused(bytes + [b]);
    assert events[..|events| - 1] == Refused(bytes);
  }

  lemma {:induction false} FedConcat(trig: seq<byte>, s: Serial, a: seq<byte>, b: seq<byte>)
    requires WellFormed(trig, s)
    ensures Fed(trig, s, a + b) == Fed(trig, Fed(trig, s, a), b)
    decreases |b|
  {
    if b == [] {
      assert a + b == a;
    } else {
      var init, last := b[..|b| - 1], b[|b| - 1];
      assert b == init + [last] && a + b == a + init + [last];
      FedConcat(trig, s, a, init);
      FedOneMore(trig, s, a + init, last);
      FedOneMore(trig, Fed(trig, s, a), init, last);
    }
  }

  /** The RPC sniffer is between frames; the trigger sniffer may hold a partial trigger. */
  ghost predicate Resting(trig: seq<byte>, s: Serial) {
    WellFormed(trig, s) && AtRest(s.(trigMatched := 0)) && !s.attached
  }

  /** What a replay does depends on the trigger only through its being well formed. */
  lemma {:induction false} ReplayIgnoresTrigger(trig: seq<byte>, s: Serial, bytes: seq<byte>, room: bool)
    requires WellFormed(trig, s) && s.trigMatched == 0
    ensures WellFormed([], s) && Replay(trig, s, bytes, room) == Replay([], s, bytes, room)
    decreases |bytes|
  {
    if bytes == [] {
    } else {
      ReplayIgnoresTrigger(trig, s, bytes[..|bytes| - 1], room);
    }
  }

  /** The partial trigger goes to the console when it is given back between frames. */
  lemma HeldGoesToConsole(trig: seq<byte>, s: Serial, room: bool)
    requires Resting(trig, s) && MAGIC[0] !in trig
    ensures WellFormed(trig, s.(trigMatched := 0))
    ensures Replay(trig, s.(trigMatched := 0), trig[..s.trigMatched], room) ==
            s.(trigMatched := 0, console := s.console + trig[..s.trigMatched])
  {
    var s0 := s.(trigMatched := 0);
    ReplayIgnoresTrigger(trig, s0, trig[..s.trigMatched], room);
    TextPasses(s0, trig[..s.trigMatched], room);
  }

  /** A byte of text moves on to the console or joins the partial trigger. */
  lemma TextByteKept(trig: seq<byte>, s: Serial, c: byte)
    requires Resting(trig, s) && MAGIC[0] !in trig && c != MAGIC[0]
    ensures var s' := Step(trig, s, Arrives(c, true, false));
            && Resting(trig, s') && s'.served == s.served
            && s'.console + trig[..s'.trigMatched] == s.console + trig[..s.trigMatched] + [c]
  {
    var n := s.trigMatched;
    HeldGoesToConsole(trig, s, true);
    var given := s.(trigMatched := 0, console := s.console + trig[..n]);
    RestByte(given, c);
    RestByte(s, c);
    if trig != [] && c == trig[n] && n + 1 < |trig| {
      assert trig[..n + 1] == trig[..n] + [c];
      assert s.console + (trig[..n] + [c]) == s.console + trig[..n] + [c];
    } else if trig != [] && c != trig[n] && n > 0 && c == trig[0] {
      assert trig[..1] == [c];
    } else {
      assert n == 0 ==> s.console + trig[..n] == s.console;
      assert given.console + [c] + trig[..0] == given.console + [c];
    }
  }

  /** The RPC sniffer passes a byte that opens no frame. */
  lemma RestByte(s: Serial, c: byte)
    requires s.phase.Preamble? && s.matched == 0 && c != MAGIC[0]
    ensures ConsoleByte(s, c, true) == s.(console := s.console + [c])
  {
    assert s.console + MAGIC[..0] == s.console;
  }

  lemma {:induction false} TextKept(trig: seq<byte>, s: Serial, text: seq<byte>)
    requires Resting(trig, s) && MAGIC[0] !in trig && MAGIC[0] !in text
    ensures var s' := Fed(trig, s, text);
            && Resting(trig, s') && s'.served == s.served
            && s'.console + trig[..s'.trigMatched] == s.console + trig[..s.trigMatched] + text
    decreases |text|
  {
    if text == [] {
      assert s.console + trig[..s.trigMatched] + text == s.console + trig[..s.trigMatched];
    } else {
      var init, c := text[..|text| - 1], text[|text| - 1];
      assert text == init + [c] && c in text;
      TextKept(trig, s, init);
      FedOneMore(trig, s, init, c);
      TextByteKept(trig, Fed(trig, s, init), c);
      assert s.console + trig[..s.trigMatched] + init + [c] == s.console + trig[..s.trigMatched] + text;
    }
  }

  /** The lead byte of a frame ends a partial trigger and opens the frame. */
  lemma LeadByteOpens(trig: seq<byte>, s: Serial)
    requires Resting(trig, s) && MAGIC[0] !in trig
    ensures var given := s.(trigMatched := 0, console := s.console + trig[..s.trigMatched]);
            && AtRest(given)
            && Step(trig, s, Arrives(MAGIC[0], true, false)) == ConsoleByte(given, MAGIC[0], true)
  {
    HeldGoesToConsole(trig, s, true);
    if trig != [] { assert trig[s.trigMatched] in trig && trig[0] in trig; }
    if s.trigMatched == 0 { assert s.console + trig[..0] == s.console; }
  }

  /** Inside a frame the trigger sniffer stands aside. */
  lemma {:induction false} FrameBypasses(trig: seq<byte>, s: Serial, bytes: seq<byte>)
    requires WellFormed(trig, s) && s.trigMatched == 0 && !s.attached
    requires forall k :: 0 <= k < |bytes| ==> Assembling(Replay([], s, bytes[..k], true))
    ensures Fed(trig, s, bytes) == Replay([], s, bytes, true)
    decreases |bytes|
  {
    if bytes == [] {
    } else {
      var init, b := bytes[..|bytes| - 1], bytes[|bytes| - 1];
      forall k | 0 <= k < |init| ensures Assembling(Replay([], s, init[..k], true)) { assert init[..k] == bytes[..k]; }
      FrameBypasses(trig, s, init);
      assert bytes == init + [b];
      FedOneMore(trig, s, init, b);
      ReplayOneMore(s, init, b, true);
      assert Assembling(Replay([], s, bytes[..|init|], true));
    }
  }

  /** Part of a frame leaves the RPC sniffer assembling. */
  lemma InsideFrame(s: Serial, id: byte, payload: seq<byte>, k: nat)
    requires AtRest(s) && |payload| <= 0xFFFF && 0 < k < |FrameBytes(id, payload)|
    ensures Assembling(Replay([], s, FrameBytes(id, payload)[..k], true))
  {
    var frame := FrameBytes(id, payload);
    var hi, lo := (|payload| / 256) as byte, (|payload| % 256) as byte;
    assert MAGIC[..4] == MAGIC;
    MagicOpens(s, 4, true);
    var s1 := s.(matched := 4, phase := Header, framed := true);
    if k <= 4 {
      assert frame[..k] == MAGIC[..k];
      MagicOpens(s, k, true);
    } else if k < 7 {
      assert frame[..k] == MAGIC + [id, hi][..k - 4];
      ReplayConcat(s, MAGIC, [id, hi][..k - 4], true);
      PartHeader(s1, id, hi, k - 4);
    } else {
      assert frame[..k] == MAGIC + [id, hi, lo] + payload[..k - 7];
      ReplayConcat(s, MAGIC, [id, hi, lo], true);
      ReplayConcat(s, MAGIC + [id, hi, lo], payload[..k - 7], true);
      HeaderIsTaken(s1, id, hi, lo, true);
      PayloadIsTaken(ConsoleByte(s1.(head := [id, hi]), lo, true), payload, k - 7, true);
    }
  }

  lemma PartHeader(s: Serial, id: byte, hi: byte, k: nat)
    requires WellFormed([], s) && s.phase.Header? && s.head == [] && k <= 2
    ensures Assembling(Replay([], s, [id, hi][..k], true))
  {
    ReplayOneMore(s, [], id, true);
    ReplayOneMore(s, [id], hi, true);
    assert [] + [id] == [id] && [id] + [hi] == [id, hi];
    assert [id, hi][..1] == [id] && [id, hi][..2] == [id, hi] && [id, hi][..0] == [];
  }

  /** A frame on a claimed port: the partial trigger before it goes to the console, and the
      frame is decoded whatever its bytes are. */
  lemma FrameKept(trig: seq<byte>, s: Serial, id: byte, payload: seq<byte>)
    requires Resting(trig, s) && MAGIC[0] !in trig && |payload| <= 0xFFFF
    ensures var s' := Fed(trig, s, FrameBytes(id, payload));
            && Resting(trig, s') && s'.trigMatched == 0
            && s'.console == s.console + trig[..s.trigMatched]
            && s'.served == s.served + Answer(id, payload, true)
  {
    var frame := FrameBytes(id, payload);
    var given := s.(trigMatched := 0, console := s.console + trig[..s.trigMatched]);
    LeadByteOpens(trig, s);
    FedLead(trig, s, frame);
    RestOfFrame(trig, given, id, payload);
    FrameDecodes(given, id, payload, true);
  }

  /** From its lead byte on, a frame goes past the trigger sniffer. */
  lemma RestOfFrame(trig: seq<byte>, s: Serial, id: byte, payload: seq<byte>)
    requires AtRest(s) && WellFormed(trig, s) && !s.attached && |payload| <= 0xFFFF
    ensures var frame := FrameBytes(id, payload);
            && WellFormed(trig, ConsoleByte(s, MAGIC[0], true))
            && Fed(trig, ConsoleByte(s, MAGIC[0], true), frame[1..]) == Replay([], s, frame, true)
  {
    var frame := FrameBytes(id, payload);
    ConsoleByteWellFormed(trig, s, MAGIC[0], true);
    ReplayFrom(s, frame);
    forall k | 0 <= k < |frame[1..]|
      ensures Assembling(Replay([], ConsoleByte(s, frame[0], true), frame[1..][..k], true))
    {
      InsideAfterLead(s, id, payload, k);
    }
    FrameBypasses(trig, ConsoleByte(s, frame[0], true), frame[1..]);
  }

  lemma InsideAfterLead(s: Serial, id: byte, payload: seq<byte>, k: nat)
    requires AtRest(s) && |payload| <= 0xFFFF && k + 1 < |FrameBytes(id, payload)|
    ensures var frame := FrameBytes(id, payload);
            && WellFormed([], ConsoleByte(s, frame[0], true))
            && Assembling(Replay([], ConsoleByte(s, frame[0], true), frame[1..][..k], true))
  {
    var frame := FrameBytes(id, payload);
    InsideFrame(s, id, payload, k + 1);
    ReplayFrom(s, frame[..k + 1]);
    assert frame[..k + 1][1..] == frame[1..][..k];
  }

  lemma FedLead(trig: seq<byte>, s: Serial, frame: seq<byte>)
    requires WellFormed(trig, s) && frame != []
    ensures Fed(trig, s, frame) == Fed(trig, Step(trig, s, Arrives(frame[0], true, false)), frame[1..])
  {
    assert frame == [frame[0]] + frame[1..];
    FedConcat(trig, s, [frame[0]], frame[1..]);
    FedOneMore(trig, s, [], frame[0]);
    assert [] + [frame[0]] == [frame[0]];
  }

  lemma ReplayFrom(s: Serial, bytes: seq<byte>)
    requires WellFormed([], s) && bytes != []
    ensures WellFormed([], ConsoleByte(s, bytes[0], true))
    ensures Replay([], s, bytes, true) == Replay([], ConsoleByte(s, bytes[0], true), bytes[1..], true)
  {
    assert bytes == [bytes[0]] + bytes[1..];
    ReplayConcat(s, [bytes[0]], bytes[1..], true);
    ReplayOneMore(s, [], bytes[0], true);
    assert [] + [bytes[0]] == [bytes[0]];
  }

  /** A claim disturbs nothing: for any trigger without the lead byte, every attach refused,
      any mix of text and frames gives the same answers, and the console and the partial
      trigger withheld make up exactly the text. */
  lemma {:induction false} ClaimedStreamDecodes(trig: seq<byte>, pieces: seq<Piece>)
    requires MAGIC[0] !in trig && forall i :: 0 <= i < |pieces| ==> Sendable(pieces[i])
    ensures var s := Run(trig, IDLE, Refused(Stream(pieces)));
            && Resting(trig, s) && s.served == Answers(pieces)
            && s.console + Withheld(trig, s) == Texts(pieces)
    decreases |pieces|
  {
    if pieces == [] {
    } else {
      var init, last := pieces[..|pieces| - 1], pieces[|pieces| - 1];
      ClaimedStreamDecodes(trig, init);
      var s := Fed(trig, IDLE, Stream(init));
      match last {
        case Text(text) =>
          FedConcat(trig, IDLE, Stream(init), text);
          TextPiece(trig, s, text);
          assert Answers(init) + [] == Answers(init);
        case Frame(id, payload) =>
          FedConcat(trig, IDLE, Stream(init), FrameBytes(id, payload));
          FramePiece(trig, s, id, payload);
          assert Texts(init) + [] == Texts(init);
      }
    }
  }

  lemma TextPiece(trig: seq<byte>, s: Serial, text: seq<byte>)
    requires Resting(trig, s) && MAGIC[0] !in trig && MAGIC[0] !in text
    ensures var s' := Fed(trig, s, text);
            && Resting(trig, s') && s'.served == s.served
            && s'.console + Withheld(trig, s') == s.console + Withheld(trig, s) + text
  {
    TextKept(trig, s, text);
    RestingWithheld(trig, s);
    RestingWithheld(trig, Fed(trig, s, text));
  }

  lemma FramePiece(trig: seq<byte>, s: Serial, id: byte, payload: seq<byte>)
    requires Resting(trig, s) && MAGIC[0] !in trig && |payload| <= 0xFFFF
    ensures var s' := Fed(trig, s, FrameBytes(id, payload));
            && Resting(trig, s') && s'.served == s.served + Answer(id, payload, true)
            && s'.console + Withheld(trig, s') == s.console + Withheld(trig, s)
  {
    FrameKept(trig, s, id, payload);
    RestingWithheld(trig, s);
    RestingWithheld(trig, Fed(trig, s, FrameBytes(id, payload)));
    assert s.console + trig[..s.trigMatched] + trig[..0] == s.console + trig[..s.trigMatched];
  }

  lemma RestingWithheld(trig: seq<byte>, s: Serial)
    requires Resting(trig, s)
    ensures Withheld(trig, s) == trig[..s.trigMatched]
  {
    assert MAGIC[..0] + trig[..s.trigMatched] == trig[..s.trigMatched];
  }

  // ---- The path as the firmware keeps it ----

  class SerialConsole {
    const trig: seq<byte>     // the claim's trigger, empty without one
    var phase: Phase
    var matched: nat
    var head: seq<byte>
    var id: byte
    var want: nat
    var got: nat
    var cmd: seq<byte>
    var trigMatched: nat
    var console: seq<byte>
    var served: seq<Served>
    var framed: bool
    var attached: bool

    ghost function Abs(): Serial
      reads this
    {
      Serial(phase, matched, head, id, want, got, cmd, trigMatched, console, served, framed, attached)
    }

    ghost predicate Valid()
      reads this
    {
      WellFormed(trig, Abs())
    }

    constructor (trigger: seq<byte>)
      ensures trig == trigger && Valid() && Abs() == IDLE
    {
      trig := trigger;
      phase, matched, head, id, want, got, cmd := Preamble, 0, [], 0, 0, 0, [];
      trigMatched, console, served, framed, attached := 0, [], [], false, false;
    }

    method ConsoleChar(c: byte)
      modifies this`console
      ensures console == old(console) + [c]
    {
      console := console + [c];
    }

    method RpcReset()
      modifies this
      ensures Abs() == Reset(old(Abs()))
    {
      phase, matched, head, want, got, cmd := Preamble, 0, [], 0, 0, [];
    }

    method ReplayMagic(held: nat)
      requires held <= |MAGIC|
      modifies this`console
      ensures console == old(console) + MAGIC[..held]
    {
      var i := 0;
      while i < held
        invariant i <= held && console == old(console) + MAGIC[..i]
      {
        assert MAGIC[..i + 1] == MAGIC[..i] + [MAGIC[i]];
        ConsoleChar(MAGIC[i]);
        i := i + 1;
      }
    }

    /** rpcFeed: true when the byte belonged to a frame. */
    method Feed(b: byte, room: bool) returns (mine: bool)
      requires Valid()
      modifies this
      ensures (Abs(), mine) == RpcFeed(old(Abs()), b, room)
    {
      match phase
      case Preamble => mine := FeedPreamble(b, room);
      case Header =>
        FeedHeader(b, room);
        mine := true;
      case _ =>
        FeedPayload(b, room);
        mine := true;
    }

    method FeedPreamble(b: byte, ghost room: bool) returns (mine: bool)
      requires Valid() && phase.Preamble?
      modifies this
      ensures (Abs(), mine) == RpcFeed(old(Abs()), b, room)
    {
      if b == MAGIC[matched] {
        matched := matched + 1;
        if matched == |MAGIC| { phase, head, framed := Header, [], true; }
        return true;
      }
      var held := matched;
      matched := 0;
      ReplayMagic(held);
      if b == MAGIC[0] {
        matched := 1;
        return true;
      }
      return false;
    }

    method FeedHeader(b: byte, room: bool)
      requires Valid() && phase.Header?
      modifies this
      ensures (Abs(), true) == RpcFeed(old(Abs()), b, room)
    {
      head := head + [b];
      if |head| < 3 { return; }
      id, want, got := head[0], head[1] as int * 256 + head[2] as int, 0;
      if want == 0 {
        served := served + [EmptyReply(id)];
        RpcReset();
        return;
      }
      phase, cmd := if room then Body else Discard, [];
    }

    method FeedPayload(b: byte, ghost room: bool)
      requires Valid() && (phase.Body? || phase.Discard?)
      modifies this
      ensures (Abs(), true) == RpcFeed(old(Abs()), b, room)
    {
      if phase.Body? {
        cmd, got := cmd + [b], got + 1;
        if got < want { return; }
        served := served + [Command(id, cmd)];
        RpcReset();
      } else {
        got := got + 1;
        if got >= want { RpcReset(); }
      }
    }

    method Byte(c: byte, room: bool)
      requires Valid()
      modifies this
      ensures Valid() && Abs() == ConsoleByte(old(Abs()), c, room)
    {
      ConsoleByteWellFormed(trig, Abs(), c, room);
      var mine := Feed(c, room);
      if !mine { ConsoleChar(c); }
    }

    method ReplayTrigger(held: nat, room: bool)
      requires Valid() && held <= |trig|
      modifies this
      ensures Valid() && Abs() == Replay(trig, old(Abs()), trig[..held], room)
    {
      var i := 0;
      while i < held
        invariant i <= held && Valid() && Abs() == Replay(trig, old(Abs()), trig[..i], room)
      {
        ReplayNext(trig, old(Abs()), i, room);
        Byte(trig[i], room);
        i := i + 1;
      }
    }

    /** The trigger part of handleChar: true when the byte was withheld or attached. */
    method Trigger(c: byte, room: bool, accept: bool) returns (taken: bool)
      requires Valid()
      modifies this
      ensures Valid() && (Abs(), taken) == TriggerFeed(trig, old(Abs()), c, room, accept)
    {
      if |trig| == 0 || !phase.Preamble? || matched != 0 { return false; }
      if c == trig[trigMatched] {
        if trigMatched + 1 < |trig| {
          trigMatched := trigMatched + 1;
          return true;
        }
        trigMatched := 0;
        if accept {
          attached := true;
          return true;
        }
        ReplayTrigger(|trig| - 1, room);
      } else if trigMatched > 0 {
        var held := trigMatched;
        trigMatched := 0;
        ReplayTrigger(held, room);
        if c == trig[0] {
          trigMatched := 1;
          return true;
        }
      }
      return false;
    }

    /** handleChar: one byte of console input. */
    method Handle(c: byte, room: bool, accept: bool)
      requires Valid()
      modifies this
      ensures Valid() && Abs() == HandleChar(trig, old(Abs()), c, room, accept)
    {
      var taken := Trigger(c, room, accept);
      if !taken { Byte(c, room); }
    }

    /** rpcCheckTimeout, once its deadline has passed. */
    method CheckTimeout()
      requires Valid()
      modifies this
      ensures Valid() && Abs() == Expire(old(Abs()))
    {
      if phase.Preamble? && matched == 0 { return; }
      var held := if phase.Preamble? then matched else 0;
      RpcReset();
      ReplayMagic(held);
    }
  }
}
