/**
 * The log backend: formatted bytes assembled into bounded printable lines, and the ring that holds
 * the newest of them until there is a link to send them on.
 */
module LogBackend {
  import opened Bytes
  import opened Postcard
  import EapSemantics
  import Driver
  import Messages

  type Line = seq<Byte>

  const MAX_LINE: nat := Messages.MAX_LOG_LINE_LEN
  const DEPTH: nat := 8
  const NEWLINE: Byte := 10
  const MARK: Line := [0x20, 0x5B, 0x63, 0x75, 0x74, 0x5D]
  const KEPT: nat := MAX_LINE - 6

  // ---- Lines ---------------------------------------------------------------------------------

  /** Printable ASCII, and a dot for anything else. */
  function Shown(b: Byte): (c: Byte)
    ensures 0x20 <= c <= 0x7E
  {
    if b < 0x20 || b > 0x7E then 0x2E else b
  }

  function Printable(text: seq<Byte>): (line: Line)
    ensures |line| == |text| && forall i | 0 <= i < |text| :: line[i] == Shown(text[i])
  {
    seq(|text|, i requires 0 <= i < |text| => Shown(text[i]))
  }

  /** A segment as it is logged: whole if it fits, else its front and the mark. */
  function Rendered(text: seq<Byte>): (line: Line)
    ensures |line| <= MAX_LINE && forall c | c in line :: 0x20 <= c <= 0x7E
    ensures |text| <= MAX_LINE ==> line == Printable(text)
    ensures |text| > MAX_LINE ==> line == Printable(text[..KEPT]) + MARK && |line| == MAX_LINE
  {
    if |text| <= MAX_LINE then Printable(text) else Printable(text[..KEPT]) + MARK
  }

  /** Printable text that fits is logged as it is; of any other text each byte that is not printable becomes a dot. */
  lemma PrintableIsKept(text: seq<Byte>)
    ensures (forall b | b in text :: 32 <= b < 127) && |text| <= 128 ==> Rendered(text) == text
    ensures |Rendered(text)| == if |text| <= 128 then |text| else 128
    ensures forall i | 0 <= i < |text| && i < (if |text| <= 128 then |text| else 122) ::
              Rendered(text)[i] == if 32 <= text[i] < 127 then text[i] else 46
    ensures |text| > 128 ==> Rendered(text)[122..] == [32, 91, 99, 117, 116, 93]
  {
    if |text| > 128 {
      var front := text[..KEPT];
      assert forall i | 0 <= i < KEPT :: front[i] == text[i];
    } else if forall b | b in text :: 32 <= b < 127 {
      forall i | 0 <= i < |text|
        ensures Printable(text)[i] == text[i]
      {
        assert text[i] in text;
      }
    }
  }

  /** The stretches between newlines, the empty ones included. */
  function Segments(text: seq<Byte>): (segs: seq<seq<Byte>>)
    ensures |segs| > 0
    decreases |text|
  {
    if text == [] then [[]]
    else
      var rest := Segments(text[1..]);
      if text[0] == NEWLINE then [[]] + rest else [[text[0]] + rest[0]] + rest[1..]
  }

  function Joined(segs: seq<seq<Byte>>): seq<Byte>
    decreases |segs|
  {
    if segs == [] then [] else if |segs| == 1 then segs[0] else segs[0] + [NEWLINE] + Joined(segs[1..])
  }

  /** Segments cut the text at its newlines and nowhere else. */
  lemma {:induction false} SegmentsAreTheText(text: seq<Byte>)
    ensures Joined(Segments(text)) == text
    ensures forall s | s in Segments(text) :: NEWLINE !in s
    decreases |text|
  {
    if text != [] {
      SegmentsAreTheText(text[1..]);
      var rest := Segments(text[1..]);
      if text[0] == NEWLINE {
        assert ([[]] + rest)[1..] == rest;
        assert [] + [NEWLINE] + text[1..] == text;
      } else {
        var segs := [[text[0]] + rest[0]] + rest[1..];
        assert segs[1..] == rest[1..];
        assert rest[0] in rest && forall s | s in rest[1..] :: s in rest;
        assert Joined(segs) == [text[0]] + Joined(rest);
        assert [text[0]] + text[1..] == text;
      }
    }
  }

  /** The line each non-empty segment becomes. */
  function LinesOf(segs: seq<seq<Byte>>): seq<Line>
    decreases |segs|
  {
    if segs == [] then []
    else (if segs[0] == [] then [] else [Rendered(segs[0])]) + LinesOf(segs[1..])
  }

  // ---- Assembly, byte by byte ------------------------------------------------------------------

  datatype Assembly = Assembly(lines: seq<Line>, tail: seq<Byte>)

  function Flushed(tail: seq<Byte>): seq<Line> {
    if tail == [] then [] else [Rendered(tail)]
  }

  /** The lines that end within `data`, behind an unfinished `tail`, and what is unfinished after it. */
  function Assembled(tail: seq<Byte>, data: seq<Byte>): Assembly
    decreases |data|
  {
    if data == [] then Assembly([], tail)
    else if data[0] == NEWLINE then
      var rest := Assembled([], data[1..]);
      rest.(lines := Flushed(tail) + rest.lines)
    else Assembled(tail + [data[0]], data[1..])
  }

  function Chunked(chunks: seq<seq<Byte>>): seq<Byte>
    decreases |chunks|
  {
    if chunks == [] then [] else Chunked(chunks[..|chunks| - 1]) + chunks[|chunks| - 1]
  }

  /** Cutting the bytes anywhere changes no line. */
  lemma {:induction false} ChunksDoNotMatter(tail: seq<Byte>, a: seq<Byte>, b: seq<Byte>)
    ensures var first := Assembled(tail, a);
            var second := Assembled(first.tail, b);
            Assembled(tail, a + b) == Assembly(first.lines + second.lines, second.tail)
    decreases |a|
  {
    if a == [] {
      assert a + b == b;
      assert [] + Assembled(tail, b).lines == Assembled(tail, b).lines;
    } else {
      assert (a + b)[1..] == a[1..] + b;
      if a[0] == NEWLINE {
        ChunksDoNotMatter([], a[1..], b);
        var first := Assembled([], a[1..]);
        var second := Assembled(first.tail, b);
        assert Flushed(tail) + (first.lines + second.lines) == (Flushed(tail) + first.lines) + second.lines;
      } else {
        ChunksDoNotMatter(tail + [a[0]], a[1..], b);
      }
    }
  }

  /** One line for each non-empty segment, in order, the last one at the end of the record. */
  lemma {:induction false} AssembledIsSegments(tail: seq<Byte>, data: seq<Byte>)
    requires NEWLINE !in tail
    ensures var a, segs := Assembled(tail, data), Segments(data);
            a.lines + Flushed(a.tail) == LinesOf([tail + segs[0]] + segs[1..])
    decreases |data|
  {
    hide LinesOf, Flushed;
    var segs := Segments(data);
    if data == [] {
      assert tail + [] == tail && [tail + segs[0]] + segs[1..] == [tail] + [];
      LinesOfFirst(tail, []);
    } else {
      var rest := Segments(data[1..]);
      if data[0] == NEWLINE {
        AssembledIsSegments([], data[1..]);
        var after := Assembled([], data[1..]);
        assert [] + rest[0] == rest[0] && [rest[0]] + rest[1..] == rest;
        assert segs[1..] == rest && tail + segs[0] == tail;
        LinesOfFirst(tail, rest);
        assert Flushed(tail) + after.lines + Flushed(after.tail) == Flushed(tail) + (after.lines + Flushed(after.tail));
      } else {
        AssembledIsSegments(tail + [data[0]], data[1..]);
        assert tail + segs[0] == (tail + [data[0]]) + rest[0] && segs[1..] == rest[1..];
      }
    }
  }

  lemma LinesOfFirst(segment: seq<Byte>, rest: seq<seq<Byte>>)
    ensures LinesOf([segment] + rest) == Flushed(segment) + LinesOf(rest)
    ensures rest == [] ==> LinesOf([segment] + rest) == Flushed(segment)
  {
    assert ([segment] + rest)[1..] == rest;
  }

  /** A newline ends a segment, and nothing else does. */
  lemma {:induction false} NewlineCuts(a: seq<Byte>, b: seq<Byte>)
    requires 10 !in a
    ensures Segments(a) == [a]
    ensures Segments(a + [10] + b) == [a] + Segments(b)
    decreases |a|
  {
    var all := a + [10] + b;
    if a == [] {
      assert all[1..] == b;
    } else {
      assert all[1..] == a[1..] + [10] + b && [a[0]] + a[1..] == a;
      NewlineCuts(a[1..], b);
    }
  }

  // ---- Where lines go ------------------------------------------------------------------------------

  /** The sink if there is one; before it, the ring, whose oldest line gives way; in a panic, nowhere. */
  datatype Outlet = Outlet(linked: bool, panicking: bool, out: seq<Line>, held: seq<Line>, overwritten: nat)

  function PutHeld(o: Outlet, line: Line): Outlet {
    if |o.held| < DEPTH then o.(held := o.held + [line])
    else o.(held := o.held[1..] + [line], overwritten := o.overwritten + 1)
  }

  function Emitted(o: Outlet, line: Line): Outlet {
    if o.linked then o.(out := o.out + [line])
    else if o.panicking then o
    else PutHeld(o, line)
  }

  function EmittedAll(o: Outlet, lines: seq<Line>): Outlet
    decreases |lines|
  {
    if lines == [] then o else Emitted(EmittedAll(o, lines[..|lines| - 1]), lines[|lines| - 1])
  }

  lemma EmittedOne(o: Outlet, lines: seq<Line>, line: Line)
    ensures EmittedAll(o, lines + [line]) == Emitted(EmittedAll(o, lines), line)
    ensures EmittedAll(o, []) == o
  {
    assert (lines + [line])[..|lines|] == lines;
  }

  lemma {:induction false} EmittedTwice(o: Outlet, a: seq<Line>, b: seq<Line>)
    ensures EmittedAll(o, a + b) == EmittedAll(EmittedAll(o, a), b)
    decreases |b|
  {
    hide Emitted;
    if b == [] {
      assert a + b == a;
    } else {
      var front, last := b[..|b| - 1], b[|b| - 1];
      assert a + b == (a + front) + [last] && b == front + [last];
      EmittedTwice(o, a, front);
      EmittedOne(o, a + front, last);
      EmittedOne(EmittedAll(o, a), front, last);
    }
  }

  function DroppedNote(n: nat): Line {
    EapSemantics.Ascii("<wrn> log: " + Driver.Digits(n) + " log line(s) dropped before the link came up")
  }

  function First(between: seq<seq<Line>>): seq<Line> {
    if between == [] then [] else between[0]
  }

  function Rest(between: seq<seq<Line>>): seq<seq<Line>> {
    if between == [] then [] else between[1..]
  }

  /** The held lines as they go out, each behind what the log thread produced in front of it. */
  function Woven(held: seq<Line>, between: seq<seq<Line>>): seq<Line>
    decreases |held|
  {
    First(between) + if held == [] then [] else [held[0]] + Woven(held[1..], Rest(between))
  }

  /**
   * A sink comes: what was overwritten is owned up to, then everything held goes out in order, around
   * the lines that come meanwhile. No sink: nothing changes but that.
   */
  function Linked(o: Outlet, sink: bool, between: seq<seq<Line>>): Outlet {
    if !sink then o.(linked := false)
    else
      var note := if o.overwritten > 0 then [DroppedNote(o.overwritten)] else [];
      o.(linked := true, held := [], overwritten := 0,
         out := o.out + First(between) + note + Woven(o.held, Rest(between)))
  }

  /** What the log thread produced before the first `n` of the moments a line could be taken. */
  function Meanwhile(between: seq<seq<Line>>, n: nat): seq<Line>
  {
    if n == 0 then [] else First(between) + Meanwhile(Rest(between), n - 1)
  }

  /** `a`, in its order, among the lines of `b`. */
  predicate Among(a: seq<Line>, b: seq<Line>)
    decreases |b|
  {
    a == [] || (b != [] && ((a[0] == b[0] && Among(a[1..], b[1..])) || Among(a, b[1..])))
  }

  lemma {:induction false} AmongMore(a: seq<Line>, front: seq<Line>, b: seq<Line>)
    requires Among(a, b)
    ensures Among(a, front + b)
    decreases |front|
  {
    if front == [] {
      assert front + b == b;
    } else {
      assert (front + b)[1..] == front[1..] + b;
      AmongMore(a, front[1..], b);
    }
  }

  lemma {:induction false} HeldStayInOrder(held: seq<Line>, between: seq<seq<Line>>)
    ensures Among(held, Woven(held, between))
    decreases |held|
  {
    if held != [] {
      var rest := Woven(held[1..], Rest(between));
      HeldStayInOrder(held[1..], Rest(between));
      assert ([held[0]] + rest)[1..] == rest;
      assert Among(held, [held[0]] + rest);
      AmongMore(held, First(between), [held[0]] + rest);
    }
  }

  lemma {:induction false} EveryLineGoesOut(held: seq<Line>, between: seq<seq<Line>>)
    ensures multiset(Woven(held, between)) == multiset(held) + multiset(Meanwhile(between, |held| + 1))
    decreases |held|
  {
    hide First, Rest;
    if held == [] {
      assert Meanwhile(between, 1) == First(between) + [] == Woven(held, between);
    } else {
      EveryLineGoesOut(held[1..], Rest(between));
      assert held == [held[0]] + held[1..];
    }
  }

  /** However the two threads interleave: every held line and every new one goes out once, the held ones in order. */
  lemma NothingHeldIsLost(held: seq<Line>, between: seq<seq<Line>>)
    ensures Among(held, Woven(held, between))
    ensures multiset(Woven(held, between)) == multiset(held) + multiset(Meanwhile(between, |held| + 1))
  {
    hide Among, Woven, Meanwhile;
    HeldStayInOrder(held, between);
    EveryLineGoesOut(held, between);
  }

  /** The last eight lines, or all of them. */
  function LastEight(lines: seq<Line>): seq<Line> {
    if |lines| <= 8 then lines else lines[|lines| - 8..]
  }

  lemma LastEightNext(front: seq<Line>, last: Line)
    ensures |front| < 8 ==> LastEight(front) == front && LastEight(front + [last]) == front + [last]
    ensures |front| >= 8 ==> |LastEight(front)| == 8 && LastEight(front + [last]) == LastEight(front)[1..] + [last]
  {
  }

  lemma {:induction false} HeldAtBoot(lines: seq<Line>)
    ensures EmittedAll(Outlet(false, false, [], [], 0), lines)
            == Outlet(false, false, [], LastEight(lines), if |lines| <= 8 then 0 else |lines| - 8)
    decreases |lines|
  {
    hide LastEight;
    if lines == [] {
      assert LastEight([]) == [] by { NoneIsLast(); }
    } else {
      var front, last := lines[..|lines| - 1], lines[|lines| - 1];
      HeldAtBoot(front);
      assert lines == front + [last];
      LastEightNext(front, last);
    }
  }

  lemma NoneIsLast()
    ensures LastEight([]) == []
  {
  }

  lemma {:induction false} LinkedGoesOut(o: Outlet, lines: seq<Line>)
    requires o.linked
    ensures EmittedAll(o, lines) == o.(out := o.out + lines)
    decreases |lines|
  {
    if lines == [] {
      assert o.out + lines == o.out;
    } else {
      LinkedGoesOut(o, lines[..|lines| - 1]);
      assert o.out + lines == o.out + lines[..|lines| - 1] + [lines[|lines| - 1]];
    }
  }

  /**
   * From boot to the handshake and on: of the lines logged before there is a sink the last eight go out, after
   * a note of how many did not if there were more, and every line after that goes out as it comes.
   */
  lemma BootLinesGoOut(before: seq<Line>, after: seq<Line>)
    ensures var booted := EmittedAll(Outlet(false, false, [], [], 0), before);
            var o := EmittedAll(Linked(booted, true, []), after);
            && o.linked && o.held == [] && o.overwritten == 0
            && o.out == (if |before| <= 8 then [] else [DroppedNote(|before| - 8)]) + LastEight(before) + after
            && !Linked(o, false, []).linked && Linked(o, false, []).out == o.out
  {
    hide DroppedNote, Emitted, EmittedAll, Linked;
    var booted := EmittedAll(Outlet(false, false, [], [], 0), before);
    HeldAtBoot(before);
    LinkedAlone(booted);
    assert [] + booted.held == booted.held;
    LinkedGoesOut(Linked(booted, true, []), after);
    UnlinkedStays(EmittedAll(Linked(booted, true, []), after));
  }

  lemma LinkedAlone(o: Outlet)
    requires o.out == []
    ensures Linked(o, true, [])
            == o.(linked := true, held := [], overwritten := 0,
                  out := if o.overwritten == 0 then o.held else [DroppedNote(o.overwritten)] + o.held)
  {
    hide DroppedNote;
    WovenAlone(o.held);
  }

  lemma UnlinkedStays(o: Outlet)
    ensures Linked(o, false, []) == o.(linked := false)
  {
  }

  lemma {:induction false} WovenAlone(held: seq<Line>)
    ensures Woven(held, []) == held
    decreases |held|
  {
    if held != [] {
      WovenAlone(held[1..]);
    }
  }

  function Wrap(n: nat): (k: nat)
    requires n < 2 * DEPTH
    ensures k < DEPTH
  {
    if n < DEPTH then n else n - DEPTH
  }

  lemma WrapIsRemainder(n: nat)
    requires n < 2 * DEPTH
    ensures n % DEPTH == Wrap(n)
  {
  }

  /** Slot `i` of a ring of `count` lines that will write `head` next. */
  function Slot(head: nat, count: nat, i: nat): (k: nat)
    requires head < DEPTH && i < count <= DEPTH
    ensures k < DEPTH
  {
    Wrap(head + DEPTH - count + i)
  }

  lemma SlotsAfterPut(head: nat, count: nat)
    requires head < DEPTH && count <= DEPTH
    ensures count < DEPTH ==>
              && Slot(Wrap(head + 1), count + 1, count) == head
              && forall i | 0 <= i < count :: Slot(Wrap(head + 1), count + 1, i) == Slot(head, count, i) != head
    ensures count == DEPTH ==>
              && Slot(Wrap(head + 1), count, count - 1) == head == Slot(head, count, 0)
              && forall i | 1 <= i < count :: Slot(head, count, i) == Slot(Wrap(head + 1), count, i - 1) != head
  {
  }

  function Unrolled(slots: seq<Line>, head: nat, count: nat): (lines: seq<Line>)
    requires |slots| == DEPTH && head < DEPTH && count <= DEPTH
    ensures |lines| == count && forall i | 0 <= i < count :: lines[i] == slots[Slot(head, count, i)]
  {
    seq(count, i requires 0 <= i < count => slots[Slot(head, count, i)])
  }

  // ---- The backend itself ------------------------------------------------------------------------------

  class Backend {
    const curLine: array<Byte>
    var curLen: nat
    var curTruncated: bool
    const backlog: array<Line>
    var head: nat
    var count: nat
    var dropped: nat
    var linked: bool
    var panicking: bool
    var out: seq<Line>
    /** The unfinished segment as it arrived. */
    ghost var tail: seq<Byte>

    constructor ()
      ensures Valid() && tail == [] && State() == Outlet(false, false, [], [], 0)
      ensures fresh(curLine) && fresh(backlog)
    {
      curLine := new Byte[MAX_LINE](_ => 0);
      backlog := new Line[DEPTH](_ => []);
      curLen, curTruncated, head, count, dropped, linked, panicking, out := 0, false, 0, 0, 0, false, false, [];
      tail := [];
      new;
      assert Held() == [];
    }

    ghost predicate Valid()
      reads this, curLine
    {
      && curLine.Length == MAX_LINE && backlog.Length == DEPTH && head < DEPTH && count <= DEPTH
      && curLen <= MAX_LINE && curLine[..curLen] == Rendered(tail) && curTruncated == (|tail| > MAX_LINE)
      && NEWLINE !in tail
    }

    /** The held lines, oldest first. */
    ghost function Held(): (lines: seq<Line>)
      requires backlog.Length == DEPTH && count <= DEPTH && head < DEPTH
      reads this`head, this`count, backlog
      ensures |lines| == count
    {
      Unrolled(backlog[..], head, count)
    }

    ghost function State(): Outlet
      requires Valid()
      reads this, curLine, backlog
    {
      Outlet(linked, panicking, out, Held(), dropped)
    }

    /** `backlog_put`. */
    method BacklogPut(line: Line)
      requires Valid()
      modifies this`head, this`count, this`dropped, backlog
      ensures Valid() && State() == PutHeld(old(State()), line)
    {
      hide Wrap, Slot, Rendered;
      ghost var held := Held();
      SlotsAfterPut(head, count);
      backlog[head] := line;
      WrapIsRemainder(head + 1);
      head := (head + 1) % DEPTH;
      if count < DEPTH {
        count := count + 1;
        assert Held() == held + [line];
      } else {
        dropped := dropped + 1;
        assert Held() == held[1..] + [line];
      }
    }

    /** `backlog_pop`: the oldest, if there is one. */
    method BacklogPop() returns (line: Option<Line>)
      requires Valid()
      modifies this`count
      ensures Valid()
      ensures line == if old(State()).held == [] then None else Some(old(State()).held[0])
      ensures State() == if line.None? then old(State()) else old(State()).(held := old(State()).held[1..])
    {
      ghost var held := Held();
      if count == 0 {
        return None;
      }
      WrapIsRemainder(head + DEPTH - count);
      var oldest := (head + DEPTH - count) % DEPTH;
      line := Some(backlog[oldest]);
      count := count - 1;
      assert Held() == held[1..];
    }

    /** `emit_line`. */
    method EmitLine(line: Line)
      requires Valid()
      modifies this`out, this`head, this`count, this`dropped, backlog
      ensures Valid() && State() == Emitted(old(State()), line)
    {
      if linked {
        out := out + [line];
      } else if !panicking {
        BacklogPut(line);
      }
    }

    /** End of a line: emitted unless empty, and the assembly starts over. */
    method EndLine()
      requires Valid()
      modifies this`out, this`head, this`count, this`dropped, this`curLen, this`curTruncated, this`tail, backlog
      ensures Valid() && tail == [] && State() == EmittedAll(old(State()), Flushed(old(tail)))
    {
      ghost var o := State();
      EmittedOne(o, [], Rendered(tail));
      assert [] + [Rendered(tail)] == [Rendered(tail)];
      if curLen > 0 {
        EmitLine(curLine[..curLen]);
      }
      curLen := 0;
      curTruncated := false;
      tail := [];
      assert curLine[..0] == Rendered([]);
    }

    /** One byte of text: kept, or, once the line is full, the reason its tail is overwritten. */
    method TakeByte(b: Byte)
      requires Valid() && b != NEWLINE
      modifies this`curLen, this`curTruncated, this`tail, curLine
      ensures Valid() && tail == old(tail) + [b] && State() == old(State())
    {
      ghost var text := tail;
      tail := tail + [b];
      if curLen < MAX_LINE {
        curLine[curLen] := Shown(b);
        curLen := curLen + 1;
        assert curLine[..curLen] == Printable(text) + [Shown(b)] == Printable(tail);
      } else if !curTruncated {
        curTruncated := true;
        assert curLine[..KEPT] == Printable(text)[..KEPT] == Printable(tail[..KEPT]);
        var i := 0;
        while i < |MARK|
          invariant 0 <= i <= |MARK| && curLen == MAX_LINE && curTruncated && tail == text + [b]
          invariant curLine[..KEPT] == Printable(tail[..KEPT]) && curLine[KEPT..KEPT + i] == MARK[..i]
        {
          curLine[KEPT + i] := MARK[i];
          i := i + 1;
        }
        assert curLine[..curLen] == curLine[..KEPT] + curLine[KEPT..KEPT + i];
      } else {
        assert tail[..KEPT] == text[..KEPT];
      }
    }

    /** `line_out`, on whatever chunk the formatter hands over. */
    method LineOut(data: seq<Byte>)
      requires Valid()
      modifies this, curLine, backlog
      ensures Valid() && tail == Assembled(old(tail), data).tail
      ensures State() == EmittedAll(old(State()), Assembled(old(tail), data).lines)
    {
      hide Rendered, Emitted, EmittedAll, Valid, Assembled;
      ghost var whole, o := Assembled(tail, data), State();
      ghost var lines: seq<Line> := [];
      assert data[0..] == data;
      StartAssembly(o, whole);
      var i := 0;
      while i < |data|
        invariant i <= |data| && Valid()
        invariant State() == EmittedAll(o, lines)
        invariant var rest := Assembled(tail, data[i..]); whole == rest.(lines := lines + rest.lines)
      {
        AssembleByte(tail, data[i..], lines);
        assert data[i..][1..] == data[i + 1..];
        if data[i] == NEWLINE {
          EmittedTwice(o, lines, Flushed(tail));
          lines := lines + Flushed(tail);
          EndLine();
        } else {
          TakeByte(data[i]);
        }
        i := i + 1;
      }
      EndAssembly(tail, data[i..], lines);
    }

    /** A record, in whatever chunks it is formatted: one line for each of its non-empty segments. */
    method Process(chunks: seq<seq<Byte>>)
      requires Valid() && tail == []
      modifies this, curLine, backlog
      ensures Valid() && tail == []
      ensures State() == EmittedAll(old(State()), LinesOf(Segments(Chunked(chunks))))
    {
      hide Assembled, EmittedAll, Emitted, Valid, LinesOf;
      ghost var o := State();
      var i := 0;
      assert chunks[..0] == [];
      NothingChunked(o);
      while i < |chunks|
        invariant i <= |chunks| && Valid()
        invariant tail == Assembled([], Chunked(chunks[..i])).tail
        invariant State() == EmittedAll(o, Assembled([], Chunked(chunks[..i])).lines)
      {
        ghost var before := Chunked(chunks[..i]);
        assert chunks[..i + 1][..i] == chunks[..i];
        ChunksDoNotMatter([], before, chunks[i]);
        EmittedTwice(o, Assembled([], before).lines, Assembled(tail, chunks[i]).lines);
        LineOut(chunks[i]);
        i := i + 1;
      }
      assert chunks[..i] == chunks;
      ghost var data := Chunked(chunks);
      EmittedTwice(o, Assembled([], data).lines, Flushed(tail));
      EndLine();
      AssembledIsSegments([], data);
      assert [] + Segments(data)[0] == Segments(data)[0];
      assert [Segments(data)[0]] + Segments(data)[1..] == Segments(data);
    }

    /** What the log thread emits while the drain is at this point. */
    method EmitLines(lines: seq<Line>)
      requires Valid() && linked
      modifies this`out, this`head, this`count, this`dropped, backlog
      ensures Valid() && State() == old(State()).(out := old(State()).out + lines)
    {
      hide Rendered, Wrap, Slot, Held;
      ghost var o := State();
      var i := 0;
      assert o.out + lines[..0] == o.out;
      while i < |lines|
        invariant i <= |lines| && Valid() && State() == o.(out := o.out + lines[..i])
      {
        EmitLine(lines[i]);
        assert o.out + lines[..i] + [lines[i]] == o.out + lines[..i + 1];
        i := i + 1;
      }
      assert lines[..i] == lines;
    }

    /** The held lines go out, oldest first, around what comes meanwhile. */
    method Drain(between: seq<seq<Line>>)
      requires Valid() && linked
      modifies this`out, this`head, this`count, this`dropped, backlog
      ensures Valid() && count == 0
      ensures State() == old(State()).(held := [], out := old(State()).out + Woven(old(State()).held, between))
    {
      hide Rendered, Wrap, Slot, Held, First, Rest, Woven, Behind;
      ghost var o := State();
      ghost var whole := o.out + Woven(o.held, between);
      var left := between;
      WovenStep(o.out, o.held, left);
      EmitLines(First(left));
      while count > 0
        invariant Valid() && linked && State() == o.(out := out, held := Held())
        invariant whole == out + Behind(Held(), left)
        decreases count
      {
        BehindStep(out, Held(), left);
        var line := BacklogPop();
        out := out + [line.value];
        left := Rest(left);
        WovenStep(out, Held(), left);
        EmitLines(First(left));
      }
      BehindStep(out, Held(), left);
    }

    /** `dev_bench_log_set_sink`, with the lines the log thread produces meanwhile. */
    method SetSink(sink: bool, between: seq<seq<Line>>)
      requires Valid()
      modifies this`linked, this`out, this`head, this`count, this`dropped, backlog
      ensures Valid() && State() == Linked(old(State()), sink, between)
    {
      hide Rendered, Wrap, First, Rest, Woven;
      linked := sink;
      if !sink {
        return;
      }
      EmitLines(First(between));
      var lost := dropped;
      dropped := 0;
      if lost > 0 {
        out := out + [DroppedNote(lost)];
      }
      Drain(Rest(between));
    }
  }

  /** What is still to come once the lines in front of the next held one are out. */
  function Behind(held: seq<Line>, between: seq<seq<Line>>): seq<Line> {
    if held == [] then [] else [held[0]] + Woven(held[1..], Rest(between))
  }

  lemma WovenStep(out: seq<Line>, held: seq<Line>, between: seq<seq<Line>>)
    ensures out + Woven(held, between) == (out + First(between)) + Behind(held, between)
  {
    hide First;
  }

  lemma BehindStep(out: seq<Line>, held: seq<Line>, between: seq<seq<Line>>)
    ensures held == [] ==> out + Behind(held, between) == out
    ensures held != [] ==>
              out + Behind(held, between) == (out + [held[0]]) + Woven(held[1..], Rest(between))
  {
    hide Woven;
  }

  lemma StartAssembly(o: Outlet, whole: Assembly)
    ensures EmittedAll(o, []) == o && whole == whole.(lines := [] + whole.lines)
  {
    assert [] + whole.lines == whole.lines;
  }

  lemma AssembleByte(tail: seq<Byte>, data: seq<Byte>, lines: seq<Line>)
    requires data != []
    ensures var here := Assembled(tail, data);
            var rest := if data[0] == NEWLINE then Assembled([], data[1..]) else Assembled(tail + [data[0]], data[1..]);
            var done := if data[0] == NEWLINE then lines + Flushed(tail) else lines;
            here.(lines := lines + here.lines) == rest.(lines := done + rest.lines)
  {
    if data[0] == NEWLINE {
      var rest := Assembled([], data[1..]);
      assert lines + (Flushed(tail) + rest.lines) == (lines + Flushed(tail)) + rest.lines;
    }
  }

  lemma EndAssembly(tail: seq<Byte>, data: seq<Byte>, lines: seq<Line>)
    requires data == []
    ensures Assembled(tail, data) == Assembly([], tail) && lines + [] == lines
  {
  }

  lemma NothingChunked(o: Outlet)
    ensures Assembled([], Chunked([])) == Assembly([], []) && EmittedAll(o, []) == o
  {
  }

  // ---- The ring over any sequence of puts and pops -----------------------------------------------------

  datatype RingOp =
    | Put(line: Line)
    | Pop

  datatype Ring = Ring(held: seq<Line>, popped: seq<Line>, overwritten: nat)

  function RingStep(r: Ring, op: RingOp): Ring {
    match op
    case Put(line) =>
      var o := PutHeld(Outlet(false, false, [], r.held, r.overwritten), line);
      r.(held := o.held, overwritten := o.overwritten)
    case Pop => if r.held == [] then r else r.(held := r.held[1..], popped := r.popped + [r.held[0]])
  }

  function RingAfter(ops: seq<RingOp>): Ring
    decreases |ops|
  {
    if ops == [] then Ring([], [], 0) else RingStep(RingAfter(ops[..|ops| - 1]), ops[|ops| - 1])
  }

  function PutsOf(ops: seq<RingOp>): seq<Line>
    decreases |ops|
  {
    if ops == [] then []
    else PutsOf(ops[..|ops| - 1]) + if ops[|ops| - 1].Put? then [ops[|ops| - 1].line] else []
  }

  /**
   * Whatever is put and popped: the ring holds the newest lines in their order, never more than its
   * depth, and every line put was popped, is held or was overwritten.
   */
  lemma {:induction false} RingHoldsTheNewest(ops: seq<RingOp>)
    ensures var r, puts := RingAfter(ops), PutsOf(ops);
            && |r.held| <= DEPTH && |r.held| <= |puts|
            && r.held == puts[|puts| - |r.held|..]
            && |puts| == |r.popped| + |r.held| + r.overwritten
    decreases |ops|
  {
    if ops != [] {
      var front := ops[..|ops| - 1];
      RingHoldsTheNewest(front);
      RingStepHolds(RingAfter(front), PutsOf(front), ops[|ops| - 1]);
    }
  }

  lemma RingStepHolds(r: Ring, puts: seq<Line>, op: RingOp)
    requires |r.held| <= DEPTH && |r.held| <= |puts| && r.held == puts[|puts| - |r.held|..]
    requires |puts| == |r.popped| + |r.held| + r.overwritten
    ensures var r', puts' := RingStep(r, op), puts + if op.Put? then [op.line] else [];
            && |r'.held| <= DEPTH && |r'.held| <= |puts'|
            && r'.held == puts'[|puts'| - |r'.held|..]
            && |puts'| == |r'.popped| + |r'.held| + r'.overwritten
  {
  }

  /** Once nothing is overwritten, what comes out is what went in. */
  lemma {:induction false} RingIsAQueue(ops: seq<RingOp>)
    requires RingAfter(ops).overwritten == 0
    ensures RingAfter(ops).popped + RingAfter(ops).held == PutsOf(ops)
    decreases |ops|
  {
    if ops != [] {
      var before := RingAfter(ops[..|ops| - 1]);
      RingIsAQueue(ops[..|ops| - 1]);
      var r := RingAfter(ops);
      match ops[|ops| - 1]
      case Put(line) => assert r.popped + (before.held + [line]) == (before.popped + before.held) + [line];
      case Pop =>
        if before.held != [] {
          assert [before.held[0]] + before.held[1..] == before.held;
          assert (before.popped + [before.held[0]]) + before.held[1..] == before.popped + before.held;
        }
    }
  }
}
