/** The line editor and the remote terminal it draws on.

    The terminal is a row-major grid with immediate autowrap and unbounded rows, one column
    per byte, seen from the cell where the prompt starts.  `Editor` holds the line and
    emits terminal operations; every editing key leaves the screen reading the prompt and
    the line, with the terminal's cursor on the editor's.
  */
module LineEditor {
  import opened StreamBuffers

  // ---- The terminal ----

  /** Cells from the prompt start, everything after them blank, and the cursor's place. */
  datatype Terminal = Terminal(cells: seq<byte>, cur: nat)

  const BLANK: byte := 0x20

  function Pad(cells: seq<byte>, n: nat): (r: seq<byte>)
    ensures |r| >= n && (|cells| >= n ==> r == cells)
    decreases n - |cells|
  {
    if |cells| >= n then cells else Pad(cells + [BLANK], n)
  }

  /** A glyph at the cursor; the cursor moves on, to the next row after the last column. */
  function Glyph(t: Terminal, b: byte): Terminal {
    var cells := Pad(t.cells, t.cur);
    Terminal(if t.cur < |cells| then cells[t.cur := b] else cells + [b], t.cur + 1)
  }

  function Print(t: Terminal, bytes: seq<byte>): Terminal
    decreases |bytes|
  {
    if bytes == [] then t else Glyph(Print(t, bytes[..|bytes| - 1]), bytes[|bytes| - 1])
  }

  /** Cursor up and down by rows, stopping at the prompt's row. */
  function Up(t: Terminal, w: nat, n: nat): Terminal
    requires w > 0
  {
    if n <= t.cur / w then NonNegative(t.cur, w, n); t.(cur := t.cur - n * w) else t.(cur := t.cur % w)
  }

  function Down(t: Terminal, w: nat, n: nat): Terminal { t.(cur := t.cur + n * w) }

  /** Absolute column, counted from 1. */
  function Column(t: Terminal, w: nat, c: nat): Terminal
    requires w > 0 && c > 0
  {
    t.(cur := t.cur / w * w + Min(c - 1, w - 1))
  }

  /** Clear from the cursor to the end of the screen. */
  function ClearBelow(t: Terminal): Terminal { t.(cells := t.cells[..Min(t.cur, |t.cells|)]) }

  lemma NonNegative(cur: nat, w: nat, n: nat)
    requires w > 0 && n <= cur / w
    ensures 0 <= n * w <= cur
  {
    assert cur / w * w <= cur;
    assert n * w <= cur / w * w;
  }

  lemma {:induction false} PrintAppends(t: Terminal, bytes: seq<byte>)
    requires t.cur == |t.cells|
    ensures Print(t, bytes) == Terminal(t.cells + bytes, t.cur + |bytes|)
    decreases |bytes|
  {
    if bytes == [] {
      assert t.cells + bytes == t.cells;
    } else {
      PrintAppends(t, bytes[..|bytes| - 1]);
      assert t.cells + bytes[..|bytes| - 1] + [bytes[|bytes| - 1]] == t.cells + bytes;
    }
  }

  // ---- Wrap-aware moves ----

  /** cliMoveCursor: rows by a relative move, the column by an absolute one. */
  function Move(t: Terminal, w: nat, p: nat, from: nat, to: nat): Terminal
    requires w > 0
  {
    if from == to then t
    else
      var row, row' := (p + from) / w, (p + to) / w;
      var t1 := if row' < row then Up(t, w, row - row') else if row' > row then Down(t, w, row' - row) else t;
      Column(t1, w, (p + to) % w + 1)
  }

  /** The move ends on the target cell, whatever rows lie between. */
  lemma MoveArrives(t: Terminal, w: nat, p: nat, from: nat, to: nat)
    requires w > 0 && t.cur == p + from
    ensures Move(t, w, p, from, to) == t.(cur := p + to)
  {
    if from == to {
    } else {
      var a, b := p + from, p + to;
      var row, row' := a / w, b / w;
      if row' < row {
        Shifted(a, w, row - row');
        OnRow(a - (row - row') * w, b, w);
      } else if row' > row {
        ShiftedDown(a, w, row' - row);
        OnRow(a + (row' - row) * w, b, w);
      } else {
        OnRow(a, b, w);
      }
    }
  }

  /** On the target's row, its column leads to it. */
  lemma OnRow(x: nat, b: nat, w: nat)
    requires w > 0 && x / w == b / w
    ensures x / w * w + Min(b % w + 1 - 1, w - 1) == b
  {
    DivMod(b, w);
  }

  lemma DivMod(a: nat, w: nat)
    requires w > 0
    ensures a == a / w * w + a % w && a % w < w
  {
  }

  lemma RowOf(q: nat, r: nat, w: nat)
    requires r < w
    ensures (q * w + r) / w == q
  {
    var x := (q * w + r) / w;
    DivMod(q * w + r, w);
    if x < q { MulMonotone(x + 1, q, w); } else if x > q { MulMonotone(q + 1, x, w); }
  }

  lemma MulMonotone(a: nat, b: nat, w: nat)
    requires a <= b
    ensures a * w <= b * w
  {
  }

  lemma Shifted(a: nat, w: nat, n: nat)
    requires w > 0 && n <= a / w
    ensures 0 <= a - n * w && (a - n * w) / w == a / w - n
  {
    NonNegative(a, w, n);
    DivMod(a, w);
    assert a - n * w == (a / w - n) * w + a % w;
    RowOf(a / w - n, a % w, w);
  }

  lemma ShiftedDown(a: nat, w: nat, n: nat)
    requires w > 0
    ensures (a + n * w) / w == a / w + n
  {
    DivMod(a, w);
    assert a + n * w == (a / w + n) * w + a % w;
    RowOf(a / w + n, a % w, w);
  }

  /** cliEditRefresh: start of input, clear, the whole line, back to the cursor. */
  function Redraw(t: Terminal, w: nat, p: nat, from: nat, buf: seq<byte>, cursor: nat): Terminal
    requires w > 0
  {
    Move(Print(ClearBelow(Move(t, w, p, from, 0)), buf), w, p, |buf|, cursor)
  }

  lemma RedrawShows(t: Terminal, w: nat, prompt: seq<byte>, from: nat, buf: seq<byte>, cursor: nat)
    requires w > 0 && prompt <= t.cells && t.cur == |prompt| + from && cursor <= |buf|
    ensures Redraw(t, w, |prompt|, from, buf, cursor) == Terminal(prompt + buf, |prompt| + cursor)
  {
    var p := |prompt|;
    MoveArrives(t, w, p, from, 0);
    PrintAppends(Terminal(prompt, p), buf);
    assert ClearBelow(t.(cur := p)) == Terminal(prompt, p);
    MoveArrives(Terminal(prompt + buf, p + |buf|), w, p, |buf|, cursor);
  }

  /** Emitting one glyph at the end of the line draws what a full redraw would. */
  lemma AppendIsRedraw(t: Terminal, w: nat, prompt: seq<byte>, buf: seq<byte>, c: byte)
    requires w > 0 && t == Terminal(prompt + buf, |prompt| + |buf|)
    ensures Glyph(t, c) == Redraw(t, w, |prompt|, |buf|, buf + [c], |buf| + 1)
  {
    RedrawShows(t, w, prompt, |buf|, buf + [c], |buf| + 1);
    assert prompt + buf + [c] == prompt + (buf + [c]);
  }

  // ---- What the keys mean for the line ----

  datatype EscState = Normal | SawEsc | Csi | Ss3 | CsiRest

  datatype Edit = Edit(
    buf: seq<byte>, cursor: nat, esc: EscState, param: nat,
    histIdx: int, saved: seq<byte>, savedValid: bool)

  const ESC: byte := 0x1B
  const MAX_LINE := 4096

  predicate Proper(e: Edit) { e.cursor <= |e.buf| && e.histIdx >= -1 }

  function HistGet(hist: seq<seq<byte>>, i: int): seq<seq<byte>> {
    if 0 <= i < |hist| then [hist[i]] else []
  }

  function Replaced(e: Edit, text: seq<byte>): Edit { e.(buf := text, cursor := |text|) }

  function HistoryUp(e: Edit, hist: seq<seq<byte>>): Edit {
    var h := HistGet(hist, e.histIdx + 1);
    if h == [] then e
    else
      var e1 := if e.histIdx < 0 then e.(saved := e.buf, savedValid := true) else e;
      Replaced(e1.(histIdx := e.histIdx + 1), h[0])
  }

  function HistoryDown(e: Edit, hist: seq<seq<byte>>): Edit {
    if e.histIdx > 0 then
      var h := HistGet(hist, e.histIdx - 1);
      var e1 := e.(histIdx := e.histIdx - 1);
      if h == [] then e1 else Replaced(e1, h[0])
    else if e.histIdx == 0 then
      Replaced(e.(histIdx := -1, savedValid := false), if e.savedValid then e.saved else [])
    else e
  }

  /** A decoded key: its final byte and its first numeric parameter, 0 without one. */
  function EscKey(e: Edit, final: byte, param: nat, hist: seq<seq<byte>>): Edit
    requires Proper(e)
  {
    match final
    case 0x44 => if e.cursor > 0 then e.(cursor := e.cursor - 1) else e             // left
    case 0x43 => if e.cursor < |e.buf| then e.(cursor := e.cursor + 1) else e       // right
    case 0x41 => HistoryUp(e, hist)
    case 0x42 => HistoryDown(e, hist)
    case 0x48 => e.(cursor := 0)                                                    // Home
    case 0x46 => e.(cursor := |e.buf|)                                              // End
    case 0x7E =>
      if param == 3 && e.cursor < |e.buf| then
        e.(buf := e.buf[..e.cursor] + e.buf[e.cursor + 1..])                        // DEL
      else if param == 1 || param == 7 then e.(cursor := 0)
      else if param == 4 || param == 8 then e.(cursor := |e.buf|)
      else e
    case _ => e
  }

  function Insert(e: Edit, bytes: seq<byte>): Edit
    requires Proper(e)
  {
    e.(buf := e.buf[..e.cursor] + bytes + e.buf[e.cursor..], cursor := e.cursor + |bytes|)
  }

  predicate IsParameter(c: byte) { 0x30 <= c <= 0x3F }
  predicate IsDigit(c: byte) { 0x30 <= c <= 0x39 }
  predicate IsIntermediate(c: byte) { 0x20 <= c <= 0x2F }
  predicate IsFinal(c: byte) { 0x40 <= c <= 0x7E }

  /** One more digit of the first parameter, which stops growing at five digits. */
  function AddDigit(n: nat, c: byte): nat
    requires IsDigit(c)
  {
    if n < 10000 then n * 10 + (c - 0x30) else n
  }

  /** Enter and ^D end the line, or the session, instead of editing. */
  predicate EndsLine(e: Edit, c: byte) { e.esc.Normal? && (c == 0x04 || c == 0x0A || c == 0x0D) }

  /** What decides whether a prompt follows a line: the session is the log's own serial
      port, and the command just run neither ended the session nor asked to. */
  datatype Session = Session(usb: bool, stays: bool)

  /** A fresh prompt follows Enter, or the old one is still there. */
  predicate PromptsAgain(e: Edit, c: byte, ansi: bool, session: Session) {
    c != 0x04 && if e.buf == [] then !session.usb else session.stays && ansi
  }

  /** One byte of input.  `hist` is the history at that moment, `suffix` what completion
      finds to add, empty for nothing. */
  function Key(e: Edit, c: byte, hist: seq<seq<byte>>, suffix: seq<byte>): Edit
    requires Proper(e)
  {
    match e.esc
    case SawEsc => e.(param := 0, esc := if c == 0x5B then Csi else if c == 0x4F then Ss3 else Normal)
    case Ss3 => EscKey(e.(esc := Normal), c, 0, hist)
    case Normal => NormalKey(e, c, suffix)
    case _ =>
      if IsParameter(c) then
        if e.esc.Csi? then if IsDigit(c) then e.(param := AddDigit(e.param, c)) else e.(esc := CsiRest)
        else e
      else if IsIntermediate(c) then e
      else if IsFinal(c) then EscKey(e.(esc := Normal), c, e.param, hist)
      else e.(esc := Normal)
  }

  function NormalKey(e: Edit, c: byte, suffix: seq<byte>): Edit
    requires Proper(e)
  {
    if c == ESC then e.(esc := SawEsc)
    else if c == 0x01 then e.(cursor := 0)
    else if c == 0x05 then e.(cursor := |e.buf|)
    else if c == 0x0A || c == 0x0D then
      if e.buf == [] then e else e.(buf := [], cursor := 0, histIdx := -1, savedValid := false)
    else if c == 0x09 then if suffix == [] then e else Insert(e, suffix)
    else if c == 0x7F || c == 0x08 then
      if e.cursor > 0 then e.(buf := e.buf[..e.cursor - 1] + e.buf[e.cursor..], cursor := e.cursor - 1) else e
    else if c >= 0x20 && |e.buf| < MAX_LINE then Insert(e, [c])
    else e
  }

  lemma KeyProper(e: Edit, c: byte, hist: seq<seq<byte>>, suffix: seq<byte>)
    requires Proper(e)
    ensures Proper(Key(e, c, hist, suffix))
  {
  }

  // ---- Laws of the keys ----

  /** Backspace undoes a typed character. */
  lemma BackspaceUndoesTyping(e: Edit, c: byte, hist: seq<seq<byte>>, suffix: seq<byte>)
    requires Proper(e) && e.esc.Normal? && c >= 0x20 && c != 0x7F && |e.buf| < MAX_LINE
    ensures Key(Key(e, c, hist, suffix), 0x7F, hist, suffix) == e
  {
    var e1 := Key(e, c, hist, suffix);
    assert e1.buf[..e1.cursor - 1] == e.buf[..e.cursor] && e1.buf[e1.cursor..] == e.buf[e.cursor..];
    assert e.buf[..e.cursor] + e.buf[e.cursor..] == e.buf;
  }

  function Ups(e: Edit, hist: seq<seq<byte>>, n: nat): Edit {
    if n == 0 then e else HistoryUp(Ups(e, hist, n - 1), hist)
  }

  function Downs(e: Edit, hist: seq<seq<byte>>, n: nat): Edit {
    if n == 0 then e else HistoryDown(Downs(e, hist, n - 1), hist)
  }

  lemma {:induction false} AfterUps(e: Edit, hist: seq<seq<byte>>, n: nat)
    requires e.histIdx == -1 && 1 <= n <= |hist|
    ensures Ups(e, hist, n) == Replaced(e.(histIdx := n - 1, saved := e.buf, savedValid := true), hist[n - 1])
  {
    if n > 1 {
      AfterUps(e, hist, n - 1);
    } else {
      assert Ups(e, hist, 0) == e;
    }
  }

  lemma {:induction false} AfterDowns(e: Edit, hist: seq<seq<byte>>, n: nat)
    requires 0 <= e.histIdx < |hist| && e.savedValid && n <= e.histIdx + 1
    ensures 1 <= n <= e.histIdx ==> Downs(e, hist, n) == Replaced(e.(histIdx := e.histIdx - n), hist[e.histIdx - n])
    ensures n == e.histIdx + 1 ==> Downs(e, hist, n) == Replaced(e.(histIdx := -1, savedValid := false), e.saved)
  {
    if n == 0 {
    } else {
      AfterDowns(e, hist, n - 1);
    }
  }

  /** Browsing any way up the history and back down returns to the line being typed. */
  lemma BrowsingReturns(e: Edit, hist: seq<seq<byte>>, n: nat)
    requires e.histIdx == -1 && 1 <= n <= |hist|
    ensures var r := Downs(Ups(e, hist, n), hist, n);
            r.buf == e.buf && r.cursor == |e.buf| && r.histIdx == -1
  {
    AfterUps(e, hist, n);
    AfterDowns(Ups(e, hist, n), hist, n);
  }

  // ---- Control sequences are keys, never text ----

  function Keys(e: Edit, input: seq<byte>, hist: seq<seq<byte>>): (r: Edit)
    requires Proper(e)
    ensures Proper(r)
    decreases |input|
  {
    if input == [] then e
    else
      var e1 := Keys(e, input[..|input| - 1], hist);
      KeyProper(e1, input[|input| - 1], hist, []);
      Key(Keys(e, input[..|input| - 1], hist), input[|input| - 1], hist, [])
  }

  /** A control sequence after its introducer: parameter, intermediate and final bytes
      (section 5.4 of ECMA-48). */
  ghost predicate IsSequence(params: seq<byte>, inters: seq<byte>, final: byte) {
    && (forall i :: 0 <= i < |params| ==> IsParameter(params[i]))
    && (forall i :: 0 <= i < |inters| ==> IsIntermediate(inters[i]))
    && IsFinal(final)
  }

  /** The number the leading digits spell, 0 without any. */
  function Number(params: seq<byte>): nat
    decreases |params|
  {
    if params == [] then 0
    else
      var init, c := params[..|params| - 1], params[|params| - 1];
      if AllDigits(params) then Number(init) * 10 + (c - 0x30) else Number(init)
  }

  predicate AllDigits(params: seq<byte>) { forall i :: 0 <= i < |params| ==> IsDigit(params[i]) }

  /** What the editor keeps of that number. */
  ghost predicate Holds(kept: nat, number: nat) {
    if number < 10000 then kept == number else kept >= 10000
  }

  lemma {:induction false} ParametersRead(e: Edit, params: seq<byte>, hist: seq<seq<byte>>)
    requires Proper(e) && e.esc.Csi? && e.param == 0 && forall i :: 0 <= i < |params| ==> IsParameter(params[i])
    ensures var r := Keys(e, params, hist);
            && r == e.(esc := if AllDigits(params) then Csi else CsiRest, param := r.param)
            && Holds(r.param, Number(params))
    decreases |params|
  {
    if params == [] {
    } else {
      var init, c := params[..|params| - 1], params[|params| - 1];
      ParametersRead(e, init, hist);
      assert AllDigits(params) <==> AllDigits(init) && IsDigit(c);
    }
  }

  lemma {:induction false} IntermediatesSkipped(e: Edit, inters: seq<byte>, hist: seq<seq<byte>>)
    requires Proper(e) && (e.esc.Csi? || e.esc.CsiRest?) && forall i :: 0 <= i < |inters| ==> IsIntermediate(inters[i])
    ensures Keys(e, inters, hist) == e
    decreases |inters|
  {
    if inters == [] {
    } else {
      IntermediatesSkipped(e, inters[..|inters| - 1], hist);
    }
  }

  lemma {:induction false} KeysConcat(e: Edit, a: seq<byte>, b: seq<byte>, hist: seq<seq<byte>>)
    requires Proper(e)
    ensures Keys(e, a + b, hist) == Keys(Keys(e, a, hist), b, hist)
    decreases |b|
  {
    if b == [] {
      assert a + b == a;
    } else {
      assert (a + b)[..|a + b| - 1] == a + b[..|b| - 1];
      KeysConcat(e, a, b[..|b| - 1], hist);
    }
  }

  /** A key acts the same on the number kept as on the number sent. */
  lemma KeptNumberActs(e: Edit, final: byte, kept: nat, number: nat, hist: seq<seq<byte>>)
    requires Proper(e) && Holds(kept, number)
    ensures EscKey(e, final, kept, hist) == EscKey(e, final, number, hist)
  {
  }

  /** A 7-bit control sequence does what its final byte and its first number say, and
      leaves no byte of itself in the line. */
  lemma ControlSequenceIsAKey(e: Edit, params: seq<byte>, inters: seq<byte>, final: byte, hist: seq<seq<byte>>)
    requires Proper(e) && e.esc.Normal? && IsSequence(params, inters, final)
    ensures var r := Keys(e, [ESC, 0x5B] + params + inters + [final], hist);
            r.(param := e.param) == EscKey(e, final, Number(params), hist)
  {
    var e0 := e.(esc := Csi, param := 0);
    assert Keys(e, [ESC, 0x5B], hist) == e0 by {
      assert [ESC, 0x5B][..1] == [ESC] && [ESC][..0] == [];
      assert Keys(e, [ESC], hist) == e.(esc := SawEsc);
    }
    KeysConcat(e, [ESC, 0x5B], params, hist);
    KeysConcat(e, [ESC, 0x5B] + params, inters, hist);
    KeysConcat(e, [ESC, 0x5B] + params + inters, [final], hist);
    ParametersRead(e0, params, hist);
    var e1 := Keys(e0, params, hist);
    IntermediatesSkipped(e1, inters, hist);
    FinalActs(e, e1, final, Number(params), hist);
  }

  lemma FinalActs(e: Edit, e1: Edit, final: byte, number: nat, hist: seq<seq<byte>>)
    requires Proper(e) && e.esc.Normal? && IsFinal(final)
    requires (e1.esc.Csi? || e1.esc.CsiRest?) && e1 == e.(esc := e1.esc, param := e1.param) && Holds(e1.param, number)
    ensures Keys(e1, [final], hist).(param := e.param) == EscKey(e, final, number, hist)
  {
    OneKey(e1, final, hist);
    KeptNumberActs(e1.(esc := Normal), final, e1.param, number, hist);
    assert e1.(esc := Normal) == e.(param := e1.param);
    EscKeyKeepsParam(e, final, number, e1.param, hist);
  }

  /** The keys of application mode, ESC O and one byte, likewise. */
  lemma ApplicationKeyIsAKey(e: Edit, final: byte, hist: seq<seq<byte>>)
    requires Proper(e) && e.esc.Normal?
    ensures Keys(e, [ESC, 0x4F] + [final], hist).(param := e.param) == EscKey(e, final, 0, hist)
  {
    OneKey(e, ESC, hist);
    KeysConcat(e, [ESC], [0x4F], hist);
    OneKey(e.(esc := SawEsc), 0x4F, hist);
    assert [ESC] + [0x4F] == [ESC, 0x4F];
    KeysConcat(e, [ESC, 0x4F], [final], hist);
    OneKey(e.(esc := Ss3, param := 0), final, hist);
    Ss3Key(e, final, hist);
  }

  lemma OneKey(e: Edit, c: byte, hist: seq<seq<byte>>)
    requires Proper(e)
    ensures Keys(e, [c], hist) == Key(e, c, hist, [])
  {
    assert [c][..0] == [] && Keys(e, [], hist) == e;
  }

  lemma Ss3Key(e: Edit, final: byte, hist: seq<seq<byte>>)
    requires Proper(e) && e.esc.Normal?
    ensures Key(e.(esc := Ss3, param := 0), final, hist, []).(param := e.param) == EscKey(e, final, 0, hist)
  {
    EscKeyKeepsParam(e, final, 0, 0, hist);
  }

  /** What a key does to the line does not depend on the number left over in the editor. */
  lemma EscKeyKeepsParam(e: Edit, final: byte, n: nat, left: nat, hist: seq<seq<byte>>)
    requires Proper(e)
    ensures EscKey(e.(param := left), final, n, hist) == EscKey(e, final, n, hist).(param := left)
  {
    if final == 0x41 {
      UpKeepsParam(e, left, hist);
    } else if final == 0x42 {
      DownKeepsParam(e, left, hist);
    } else if final == 0x7E {
      TildeKeepsParam(e, n, left, hist);
    }
  }

  lemma UpKeepsParam(e: Edit, left: nat, hist: seq<seq<byte>>)
    ensures HistoryUp(e.(param := left), hist) == HistoryUp(e, hist).(param := left)
  {
  }

  lemma DownKeepsParam(e: Edit, left: nat, hist: seq<seq<byte>>)
    ensures HistoryDown(e.(param := left), hist) == HistoryDown(e, hist).(param := left)
  {
  }

  lemma TildeKeepsParam(e: Edit, n: nat, left: nat, hist: seq<seq<byte>>)
    requires Proper(e)
    ensures EscKey(e.(param := left), 0x7E, n, hist) == EscKey(e, 0x7E, n, hist).(param := left)
  {
  }

  /** What a decoded key can do to the text: nothing, take one character out, or put a
      history entry or the saved line in its place. */
  lemma EscKeyTypesNothing(e: Edit, final: byte, param: nat, hist: seq<seq<byte>>)
    requires Proper(e)
    ensures var r := EscKey(e, final, param, hist);
            || r.buf == e.buf
            || (e.cursor < |e.buf| && r.buf == e.buf[..e.cursor] + e.buf[e.cursor + 1..])
            || r.buf in hist || r.buf == e.saved || r.buf == []
  {
  }

  /** The 8-bit introducer is not recognised: as long as the line has room it is typed
      into it, and when the line is full the whole sequence is dropped, key and all. */
  lemma EightBitSequence(e: Edit, params: seq<byte>, inters: seq<byte>, final: byte, hist: seq<seq<byte>>)
    requires Proper(e) && e.esc.Normal? && IsSequence(params, inters, final)
    ensures |e.buf| < MAX_LINE ==> Keys(e, [0x9B], hist) == Insert(e, [0x9B])
    ensures |e.buf| >= MAX_LINE ==> Keys(e, [0x9B] + params + inters + [final], hist) == e
  {
    assert [0x9B][..0] == [] && Keys(e, [], hist) == e;
    if |e.buf| >= MAX_LINE {
      var input := [0x9B] + params + inters + [final];
      forall i | 0 <= i < |input| ensures 0x20 <= input[i] != 0x7F {}
      FullLineDropsText(e, input, hist);
    }
  }

  lemma {:induction false} FullLineDropsText(e: Edit, input: seq<byte>, hist: seq<seq<byte>>)
    requires Proper(e) && e.esc.Normal? && |e.buf| >= MAX_LINE
    requires forall i :: 0 <= i < |input| ==> 0x20 <= input[i] != 0x7F
    ensures Keys(e, input, hist) == e
    decreases |input|
  {
    if input == [] {
    } else {
      FullLineDropsText(e, input[..|input| - 1], hist);
    }
  }

  // ---- The editor at work ----

  class Editor {
    const prompt: seq<byte>
    const width: nat
    const ansi: bool
    var buf: seq<byte>
    var cursor: nat
    var esc: EscState
    var param: nat
    var histIdx: int
    var saved: seq<byte>
    var savedValid: bool
    var term: Terminal

    ghost function Abs(): Edit
      reads this
    {
      Edit(buf, cursor, esc, param, histIdx, saved, savedValid)
    }

    /** The screen reads prompt and line, and the two cursors agree. */
    ghost predicate Agrees()
      reads this
    {
      width > 0 && Proper(Abs()) && term == Terminal(prompt + buf, |prompt| + cursor)
    }

    /** A fresh prompt.  A client that reported no width gets 80 columns. */
    constructor (prompt: seq<byte>, cols: nat, ansi: bool)
      ensures Agrees() && this.prompt == prompt && buf == [] && esc == Normal
    {
      this.prompt, this.ansi := prompt, ansi;
      width := if cols > 0 then cols else 80;
      buf, cursor, esc, param, histIdx, saved, savedValid := [], 0, Normal, 0, -1, [], false;
      term := Terminal(prompt, |prompt|);
      new;
      assert prompt + [] == prompt;
    }

    method MoveCursor(from: nat, to: nat)
      requires width > 0 && term.cur == |prompt| + from
      modifies this`term
      ensures term == old(term).(cur := |prompt| + to)
      ensures term == Move(old(term), width, |prompt|, from, to)
    {
      MoveArrives(term, width, |prompt|, from, to);
      if from == to { return; }
      var row, row' := (|prompt| + from) / width, (|prompt| + to) / width;
      if row' < row {
        term := Up(term, width, row - row');
      } else if row' > row {
        term := Down(term, width, row' - row);
      }
      term := Column(term, width, (|prompt| + to) % width + 1);
    }

    /** Redraw the whole line from wherever the terminal's cursor is. */
    method Refresh(from: nat)
      requires width > 0 && Proper(Abs()) && prompt <= term.cells && term.cur == |prompt| + from
      modifies this`term
      ensures Agrees()
      ensures term == Redraw(old(term), width, |prompt|, from, buf, cursor)
    {
      RedrawShows(term, width, prompt, from, buf, cursor);
      PrintAppends(Terminal(prompt, |prompt|), buf);
      MoveCursor(from, 0);
      term := ClearBelow(term);
      assert term == Terminal(prompt, |prompt|);
      if |buf| > 0 { term := Print(term, buf); }
      MoveCursor(|buf|, cursor);
    }

    method Replace(text: seq<byte>)
      requires Agrees()
      modifies this`term, this`buf, this`cursor
      ensures Agrees() && Abs() == Replaced(old(Abs()), text)
    {
      MoveCursor(cursor, 0);
      term := ClearBelow(term);
      assert term == Terminal(prompt, |prompt|);
      buf, cursor := text, |text|;
      PrintAppends(term, text);
      if |buf| > 0 { term := Print(term, buf); }
    }

    method Goto(to: nat)
      requires Agrees() && to <= |buf|
      modifies this`term, this`cursor
      ensures Agrees() && Abs() == old(Abs()).(cursor := to)
    {
      if to == cursor { return; }
      MoveCursor(cursor, to);
      cursor := to;
    }

    method DeleteUnder()
      requires Agrees() && cursor < |buf|
      modifies this`term, this`buf
      ensures Agrees() && Abs() == old(Abs()).(buf := old(buf[..cursor] + buf[cursor + 1..]))
    {
      assert prompt <= term.cells;
      buf := buf[..cursor] + buf[cursor + 1..];
      if |buf| == 0 && ansi {
        term := ClearBelow(term);
        assert term.cells == prompt + buf;
      } else {
        Refresh(cursor);
      }
    }

    method Backspace()
      requires Agrees()
      modifies this`term, this`buf, this`cursor
      ensures Agrees() && Abs() == NormalKey(old(Abs()).(esc := Normal), 0x7F, []).(esc := esc)
    {
      if cursor == 0 { return; }
      assert prompt <= term.cells;
      buf := buf[..cursor - 1] + buf[cursor..];
      cursor := cursor - 1;
      if |buf| == 0 && ansi {
        MoveCursor(cursor + 1, 0);
        term := ClearBelow(term);
        assert term.cells == prompt + buf;
      } else {
        Refresh(cursor + 1);
      }
    }

    method Type(c: byte)
      requires Agrees()
      modifies this`term, this`buf, this`cursor
      ensures Agrees() && Abs() == if |old(buf)| < MAX_LINE then Insert(old(Abs()), [c]) else old(Abs())
    {
      if |buf| >= MAX_LINE { return; }
      assert prompt <= term.cells;
      var atEnd := cursor == |buf|;
      ghost var was := buf;
      buf := buf[..cursor] + [c] + buf[cursor..];
      cursor := cursor + 1;
      if atEnd {
        assert buf == was + [c];
        assert prompt + was + [c] == prompt + buf;
        term := Glyph(term, c);
      } else {
        Refresh(cursor - 1);
      }
    }

    /** Completion found `suffix` to add. */
    method TabComplete(suffix: seq<byte>)
      requires Agrees()
      modifies this`term, this`buf, this`cursor
      ensures Agrees() && Abs() == if suffix == [] then old(Abs()) else Insert(old(Abs()), suffix)
    {
      if |suffix| == 0 { return; }
      assert prompt <= term.cells;
      buf := buf[..cursor] + suffix + buf[cursor..];
      cursor := cursor + |suffix|;
      Refresh(cursor - |suffix|);
    }

    method OlderLine(hist: seq<seq<byte>>)
      requires Agrees()
      modifies this
      ensures Agrees() && Abs() == HistoryUp(old(Abs()), hist)
    {
      var next := histIdx + 1;
      if next < |hist| {
        if histIdx < 0 { saved, savedValid := buf, true; }
        histIdx := next;
        Replace(hist[next]);
      }
    }

    method NewerLine(hist: seq<seq<byte>>)
      requires Agrees()
      modifies this
      ensures Agrees() && Abs() == HistoryDown(old(Abs()), hist)
    {
      if histIdx > 0 {
        histIdx := histIdx - 1;
        if histIdx < |hist| { Replace(hist[histIdx]); }
      } else if histIdx == 0 {
        histIdx := -1;
        Replace(if savedValid then saved else []);
        savedValid := false;
      }
    }

    method Escape(final: byte, n: nat, hist: seq<seq<byte>>)
      requires Agrees()
      modifies this
      ensures Agrees() && Abs() == EscKey(old(Abs()), final, n, hist)
    {
      match final
      case 0x44 => if cursor > 0 { Goto(cursor - 1); }
      case 0x43 => if cursor < |buf| { Goto(cursor + 1); }
      case 0x41 => OlderLine(hist);
      case 0x42 => NewerLine(hist);
      case 0x48 => Goto(0);
      case 0x46 => Goto(|buf|);
      case 0x7E =>
        if n == 3 && cursor < |buf| { DeleteUnder(); }
        else if n == 1 || n == 7 { Goto(0); }
        else if n == 4 || n == 8 { Goto(|buf|); }
      case _ =>
    }

    /** cliEditChar.  Every byte has its meaning for the line, and whenever a prompt is on
        the screen afterwards, screen and cursors agree; only a line's or session's end can
        leave none there. */
    method Char(c: byte, hist: seq<seq<byte>>, suffix: seq<byte>, session: Session) returns (prompted: bool)
      requires Agrees()
      modifies this
      ensures Abs() == Key(old(Abs()), c, hist, suffix)
      ensures prompted == (EndsLine(old(Abs()), c) ==> PromptsAgain(old(Abs()), c, ansi, session))
      ensures prompted ==> Agrees()
    {
      prompted := true;
      match esc
      case SawEsc =>
        param, esc := 0, if c == 0x5B then Csi else if c == 0x4F then Ss3 else Normal;
      case Ss3 =>
        esc := Normal;
        Escape(c, 0, hist);
      case Normal =>
        if c == 0x04 {
          prompted := false;
        } else if c == 0x0A || c == 0x0D {
          prompted := Enter(session);
        } else {
          Plain(c, suffix);
        }
      case _ => InCsi(c, hist);
    }

    /** The Enter key: a line is taken and cleared, and a prompt drawn if there is to be one. */
    method Enter(session: Session) returns (prompted: bool)
      requires Agrees() && esc.Normal?
      modifies this
      ensures Abs() == NormalKey(old(Abs()), 0x0D, [])
      ensures prompted == PromptsAgain(old(Abs()), 0x0D, ansi, session)
      ensures prompted ==> Agrees()
    {
      if |buf| > 0 {
        buf, cursor, histIdx, savedValid := [], 0, -1, false;
        prompted := session.stays && ansi;
        if prompted { WritePrompt(); }
      } else {
        prompted := !session.usb;
        if prompted && ansi { WritePrompt(); }
      }
    }

    /** A prompt at the start of a row; from here on the screen is seen from there. */
    method WritePrompt()
      requires width > 0 && Proper(Abs()) && buf == []
      modifies this`term
      ensures Agrees()
    {
      PrintAppends(Terminal([], 0), prompt);
      term := Print(Terminal([], 0), prompt);
      assert [] + prompt == prompt + [];
    }

    method InCsi(c: byte, hist: seq<seq<byte>>)
      requires Agrees() && (esc.Csi? || esc.CsiRest?)
      modifies this
      ensures Agrees() && Abs() == Key(old(Abs()), c, hist, [])
    {
      if IsParameter(c) {
        if esc.Csi? {
          if IsDigit(c) {
            if param < 10000 { param := param * 10 + (c - 0x30); }
          } else {
            esc := CsiRest;
          }
        }
        return;
      }
      if IsIntermediate(c) { return; }
      esc := Normal;
      if IsFinal(c) { Escape(c, param, hist); }
    }

    method Plain(c: byte, suffix: seq<byte>)
      requires Agrees() && esc.Normal? && !EndsLine(Abs(), c)
      modifies this
      ensures Agrees() && Abs() == NormalKey(old(Abs()), c, suffix)
    {
      if c == ESC { esc := SawEsc; }
      else if c == 0x01 { Goto(0); }
      else if c == 0x05 { Goto(|buf|); }
      else if c == 0x09 { TabComplete(suffix); }
      else if c == 0x7F || c == 0x08 { Backspace(); }
      else if c >= 0x20 { Type(c); }
    }
  }
}
