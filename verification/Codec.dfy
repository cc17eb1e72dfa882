/** SMTP lines: reading with a cap, dot-stuffing, and the bounded DATA body. */
module Codec {
  import opened Prelude

  const CR: byte := 13
  const LF: byte := 10
  const DOT: byte := 46
  const CRLF: Bytes := [CR, LF]

  /** Section 4.5.3.1.4 of RFC 5321, CRLF included. */
  const MAX_COMMAND_LINE := 512
  const MAX_DATA_LINE := 8192
  const DISCARD_SLACK := 1048576

  datatype LineResult = Line(text: Bytes) | TooLong | Eof | UnexpectedEof

  // ---------- one line ----------

  /** Position of the first LF, or the length when there is none. */
  function FirstLF(s: Bytes): (n: nat)
    ensures n <= |s|
    ensures n < |s| ==> s[n] == LF
    ensures forall i :: 0 <= i < n ==> s[i] != LF
  {
    if s == [] || s[0] == LF then 0 else 1 + FirstLF(s[1..])
  }

  function StripCR(s: Bytes): Bytes {
    if |s| > 0 && s[|s| - 1] == CR then s[..|s| - 1] else s
  }

  /** What a read of `rest` under `cap` yields. */
  function ReadResult(rest: Bytes, cap: nat): LineResult {
    var n := FirstLF(rest);
    if n < |rest| && n < cap then Line(StripCR(rest[..n]))
    else if |rest| > cap then TooLong
    else if rest == [] then Eof
    else UnexpectedEof
  }

  /** Through the first LF, on success and on overflow alike; everything when there is none. */
  function Consumed(rest: Bytes): nat {
    if FirstLF(rest) < |rest| then FirstLF(rest) + 1 else |rest|
  }

  predicate LFFree(s: Bytes) {
    forall i :: 0 <= i < |s| ==> s[i] != LF
  }

  lemma FirstLFOfLine(line: Bytes, rest: Bytes)
    requires LFFree(line)
    ensures FirstLF(line + [LF] + rest) == |line|
  {
    var s := line + [LF] + rest;
    assert s[|line|] == LF;
    assert forall i :: 0 <= i < |line| ==> s[i] == line[i];
  }

  /** A line ends at its LF; one CR before that is part of the ending. What does not fit in `cap` is too long. */
  lemma LineEnds(text: Bytes, rest: Bytes, cap: nat)
    requires LFFree(text)
    ensures ReadResult(text + CRLF + rest, cap) == if |text| + 2 <= cap then Line(text) else TooLong
    ensures Consumed(text + CRLF + rest) == |text| + 2
    ensures text == [] || text[|text| - 1] != CR ==>
              ReadResult(text + [LF] + rest, cap) == if |text| + 1 <= cap then Line(text) else TooLong
    ensures Consumed(text + [LF] + rest) == |text| + 1
  {
    FirstLFOfLine(text, rest);
    assert (text + [LF] + rest)[..|text|] == text;
    var s := text + CRLF + rest;
    assert s == (text + [CR]) + [LF] + rest;
    FirstLFOfLine(text + [CR], rest);
    assert s[..|text| + 1] == text + [CR];
    assert StripCR(text + [CR]) == text;
  }

  /** A stream without an LF has no line: its end comes first, or the cap. */
  lemma NoLineWithoutLF(rest: Bytes, cap: nat)
    requires LFFree(rest)
    ensures Consumed(rest) == |rest|
    ensures ReadResult(rest, cap) == if |rest| > cap then TooLong else if rest == [] then Eof else UnexpectedEof
  {
  }

  // ---------- dot transparency, section 4.5.2 of RFC 5321 ----------

  function Unstuff(line: Bytes): (Bytes, bool) {
    if line == [DOT] then ([], true)
    else if |line| > 0 && line[0] == DOT then (line[1..], false)
    else (line, false)
  }

  /** The sender's half: a leading dot is doubled. */
  function Stuff(line: Bytes): Bytes {
    if |line| > 0 && line[0] == DOT then [DOT] + line else line
  }

  lemma UnstuffUndoesStuff(line: Bytes)
    ensures Unstuff(Stuff(line)) == (line, false)
  {
    if |line| > 0 && line[0] == DOT {
      assert ([DOT] + line)[1..] == line;
    }
  }

  /** Of any line, stuffed or not: a dot alone ends the body, another leading dot is dropped, the rest stays. */
  lemma AnyLineUnstuffs(line: Bytes, rest: Bytes)
    ensures Unstuff(line).1 <==> line == [DOT]
    ensures rest != [] ==> Unstuff([DOT] + rest) == (rest, false)
    ensures line == [] || line[0] != DOT ==> Unstuff(line) == (line, false)
  {
    assert ([DOT] + rest)[1..] == rest;
  }

  /** The sender's DATA stream for a list of lines, terminator included. */
  function Encode(lines: seq<Bytes>): Bytes {
    if lines == [] then [DOT] + CRLF else Stuff(lines[0]) + CRLF + Encode(lines[1..])
  }

  /** The message those lines make. */
  function Joined(lines: seq<Bytes>): Bytes {
    if lines == [] then [] else lines[0] + CRLF + Joined(lines[1..])
  }

  predicate Sendable(line: Bytes) {
    LFFree(line) && |Stuff(line)| + 2 <= MAX_DATA_LINE
  }

  // ---------- the DATA body ----------

  datatype DataResult = Body(bytes: Bytes) | MessageTooLarge | DiscardBudget | LineTooLong | Disconnected

  /** Result, bytes read in all, and bytes read before the last line. */
  datatype DataOutcome = DataOutcome(result: DataResult, consumed: nat, beforeLast: nat)

  function Later(o: DataOutcome, n: nat): DataOutcome {
    DataOutcome(o.result, o.consumed + n, o.beforeLast + n)
  }

  /** What reading a body from `rest` comes to, having kept `kept` and discarded `discarded` bytes. */
  function Collect(rest: Bytes, max: int, kept: Bytes, discarded: nat, over: bool): DataOutcome
    decreases |rest|
  {
    var n := Consumed(rest);
    match ReadResult(rest, MAX_DATA_LINE)
    case TooLong => DataOutcome(LineTooLong, n, 0)
    case Eof => DataOutcome(Disconnected, n, 0)
    case UnexpectedEof => DataOutcome(Disconnected, n, 0)
    case Line(text) =>
      var (body, end) := Unstuff(text);
      var need := |body| + 2;
      if end then DataOutcome(if over then MessageTooLarge else Body(kept), n, 0)
      else if over then
        if discarded + need > DISCARD_SLACK then DataOutcome(DiscardBudget, n, 0)
        else Later(Collect(rest[n..], max, kept, discarded + need, true), n)
      else if |kept| + need > max then Later(Collect(rest[n..], max, kept, discarded + need, true), n)
      else Later(Collect(rest[n..], max, kept + body + CRLF, discarded, false), n)
  }

  /** One sent line at the front of the stream. */
  lemma ReadSentLine(line: Bytes, rest: Bytes)
    requires Sendable(line)
    ensures var s := Stuff(line) + CRLF + rest;
            ReadResult(s, MAX_DATA_LINE) == Line(Stuff(line)) && Consumed(s) == |Stuff(line)| + 2 &&
            s[|Stuff(line)| + 2..] == rest
  {
    var st := Stuff(line);
    var s := st + CRLF + rest;
    assert s == (st + [CR]) + [LF] + rest;
    assert LFFree(st + [CR]);
    FirstLFOfLine(st + [CR], rest);
    assert s[..|st| + 1] == st + [CR];
    assert StripCR(st + [CR]) == st;
  }

  lemma ReadTerminator(rest: Bytes)
    ensures var s := [DOT] + CRLF + rest;
            ReadResult(s, MAX_DATA_LINE) == Line([DOT]) && Consumed(s) == 3
  {
    var s := [DOT] + CRLF + rest;
    assert s == [DOT, CR] + [LF] + rest;
    FirstLFOfLine([DOT, CR], rest);
    assert s[..2] == [DOT, CR];
    assert StripCR([DOT, CR]) == [DOT];
  }

  /** What one body line at the front of the stream does to the collection. */
  function AfterLine(line: Bytes, n: nat, rest: Bytes, max: int, kept: Bytes, discarded: nat, over: bool): DataOutcome {
    var need := |line| + 2;
    if over && discarded + need > DISCARD_SLACK then DataOutcome(DiscardBudget, n, 0)
    else if over || |kept| + need > max then Later(Collect(rest, max, kept, discarded + need, true), n)
    else Later(Collect(rest, max, kept + line + CRLF, discarded, false), n)
  }

  lemma CollectLine(s: Bytes, text: Bytes, line: Bytes, max: int, kept: Bytes, discarded: nat, over: bool)
    requires ReadResult(s, MAX_DATA_LINE) == Line(text) && Consumed(s) <= |s| && Unstuff(text) == (line, false)
    ensures Collect(s, max, kept, discarded, over) ==
            AfterLine(line, Consumed(s), s[Consumed(s)..], max, kept, discarded, over)
  {
    hide ReadResult, Consumed, Unstuff;
  }

  lemma CollectSentLine(line: Bytes, rest: Bytes, max: int, kept: Bytes, discarded: nat, over: bool)
    requires Sendable(line)
    ensures Collect(Stuff(line) + CRLF + rest, max, kept, discarded, over) ==
            AfterLine(line, |Stuff(line)| + 2, rest, max, kept, discarded, over)
  {
    hide Collect, AfterLine, ReadResult, Consumed, Unstuff, Stuff, Sendable;
    ReadSentLine(line, rest);
    UnstuffUndoesStuff(line);
    CollectLine(Stuff(line) + CRLF + rest, Stuff(line), line, max, kept, discarded, over);
  }

  lemma CollectTerminator(rest: Bytes, max: int, kept: Bytes, discarded: nat, over: bool)
    ensures Collect([DOT] + CRLF + rest, max, kept, discarded, over) ==
            DataOutcome(if over then MessageTooLarge else Body(kept), 3, 0)
  {
    ReadTerminator(rest);
    hide ReadResult, Consumed;
  }

  lemma EncodeStep(lines: seq<Bytes>, tail: Bytes)
    ensures lines == [] ==> Encode(lines) + tail == [DOT] + CRLF + tail && |Encode(lines)| == 3
    ensures lines != [] ==>
              Encode(lines) + tail == Stuff(lines[0]) + CRLF + (Encode(lines[1..]) + tail) &&
              |Encode(lines)| == |Stuff(lines[0])| + 2 + |Encode(lines[1..])|
  {
  }

  /** Whether what is left to send after a message has outgrown its limit exceeds the discard budget. */
  function Discards(lines: seq<Bytes>, discarded: nat): bool {
    lines != [] &&
    (discarded + |lines[0]| + 2 > DISCARD_SLACK || Discards(lines[1..], discarded + |lines[0]| + 2))
  }

  lemma {:induction false} CollectDiscards(lines: seq<Bytes>, tail: Bytes, max: int, kept: Bytes, discarded: nat)
    requires forall l :: l in lines ==> Sendable(l)
    ensures var o := Collect(Encode(lines) + tail, max, kept, discarded, true);
            if Discards(lines, discarded) then o.result == DiscardBudget
            else o.result == MessageTooLarge && o.consumed == |Encode(lines)|
    decreases |lines|
  {
    hide Collect, Encode, Stuff, Sendable;
    EncodeStep(lines, tail);
    if lines == [] {
      CollectTerminator(tail, max, kept, discarded, true);
    } else {
      CollectSentLine(lines[0], Encode(lines[1..]) + tail, max, kept, discarded, true);
      CollectDiscards(lines[1..], tail, max, kept, discarded + |lines[0]| + 2);
    }
  }

  lemma {:induction false} CollectKeeps(lines: seq<Bytes>, tail: Bytes, max: int, kept: Bytes)
    requires forall l :: l in lines ==> Sendable(l)
    requires |kept| <= max
    ensures var o := Collect(Encode(lines) + tail, max, kept, 0, false);
            if |kept| + |Joined(lines)| <= max
            then o.result == Body(kept + Joined(lines)) && o.consumed == |Encode(lines)|
            else (o.result == MessageTooLarge && o.consumed == |Encode(lines)|) || o.result == DiscardBudget
    decreases |lines|
  {
    hide Collect, Encode, Stuff, Sendable;
    EncodeStep(lines, tail);
    if lines == [] {
      CollectTerminator(tail, max, kept, 0, false);
      assert kept + [] == kept;
    } else {
      var line, more := lines[0], lines[1..];
      CollectSentLine(line, Encode(more) + tail, max, kept, 0, false);
      if |kept| + |line| + 2 > max {
        CollectDiscards(more, tail, max, kept, |line| + 2);
      } else {
        CollectKeeps(more, tail, max, kept + line + CRLF);
        assert kept + line + CRLF + Joined(more) == kept + Joined(lines);
      }
    }
  }

  /**
   * Transparency: dot-stuffed lines that fit come back as sent, joined by CRLF, with the reader just
   * past the terminator; lines that do not fit in `max` are never delivered, in part or whole.
   */
  lemma StuffedLinesComeBack(lines: seq<Bytes>, tail: Bytes, max: nat)
    requires forall l :: l in lines ==> Sendable(l)
    ensures var o := Collect(Encode(lines) + tail, max, [], 0, false);
            (o.result == Body(Joined(lines)) <==> |Joined(lines)| <= max) &&
            (o.result.Body? <==> |Joined(lines)| <= max) &&
            (o.result.Body? ==> o.consumed == |Encode(lines)| && (Encode(lines) + tail)[|Encode(lines)|..] == tail)
  {
    hide Collect, Encode, Joined;
    CollectKeeps(lines, tail, max, []);
    assert [] + Joined(lines) == Joined(lines);
  }

  predicate DotFirst(line: Bytes) {
    |line| > 0 && line[0] == DOT
  }

  /** How many of the lines begin with a dot, so that sending them adds one. */
  function DotLed(lines: seq<Bytes>): nat {
    if lines == [] then 0 else (if DotFirst(lines[0]) then 1 else 0) + DotLed(lines[1..])
  }

  lemma {:induction false} EncodedSize(lines: seq<Bytes>)
    ensures |Encode(lines)| == |Joined(lines)| + DotLed(lines) + 3
  {
    if lines != [] {
      EncodedSize(lines[1..]);
    }
  }

  /**
   * How many of the lines the receiver reads, and whether the discard budget stops it there, once it
   * holds `kept` bytes and has discarded `discarded`: something the sender can work out before sending.
   */
  function Taken(lines: seq<Bytes>, max: int, kept: nat, discarded: nat, over: bool): (t: (nat, bool))
    ensures t.0 <= |lines| && (!t.1 ==> t.0 == |lines|)
    decreases |lines|
  {
    if lines == [] then (0, false)
    else
      var need := |lines[0]| + 2;
      if over && discarded + need > DISCARD_SLACK then (1, true)
      else
        var rest := if over || kept + need > max then Taken(lines[1..], max, kept, discarded + need, true)
                    else Taken(lines[1..], max, kept + need, discarded, false);
        (rest.0 + 1, rest.1)
  }

  /** The stream that `k` sent lines take, with the terminator unless the reading stopped before it. */
  function TakenSize(lines: seq<Bytes>, t: (nat, bool)): nat
    requires t.0 <= |lines|
  {
    |Joined(lines[..t.0])| + DotLed(lines[..t.0]) + if t.1 then 0 else 3
  }

  lemma TakenSizeStep(lines: seq<Bytes>, t: (nat, bool))
    requires lines != [] && 0 < t.0 <= |lines|
    ensures TakenSize(lines, t) == |Stuff(lines[0])| + 2 + TakenSize(lines[1..], (t.0 - 1, t.1))
  {
    assert lines[..t.0][0] == lines[0] && lines[..t.0][1..] == lines[1..][..t.0 - 1];
  }

  lemma {:induction false} CollectTakes(lines: seq<Bytes>, tail: Bytes, max: int, kept: Bytes, discarded: nat,
                                        over: bool)
    requires forall l :: l in lines ==> Sendable(l)
    ensures var o := Collect(Encode(lines) + tail, max, kept, discarded, over);
            var t := Taken(lines, max, |kept|, discarded, over);
            o.consumed == TakenSize(lines, t) && (o.result == DiscardBudget <==> t.1)
    decreases |lines|
  {
    hide Collect, Encode, Stuff, Sendable, TakenSize;
    EncodeStep(lines, tail);
    if lines == [] {
      CollectTerminator(tail, max, kept, discarded, over);
      NothingTaken();
    } else {
      var line, more := lines[0], lines[1..];
      var need := |line| + 2;
      CollectSentLine(line, Encode(more) + tail, max, kept, discarded, over);
      TakenSizeStep(lines, Taken(lines, max, |kept|, discarded, over));
      if over && discarded + need > DISCARD_SLACK {
        StoppedHere(more);
      } else if over || |kept| + need > max {
        CollectTakes(more, tail, max, kept, discarded + need, true);
      } else {
        CollectTakes(more, tail, max, kept + line + CRLF, discarded, false);
      }
    }
  }

  lemma NothingTaken()
    ensures TakenSize([], (0, false)) == 3
  {
  }

  lemma StoppedHere(lines: seq<Bytes>)
    ensures TakenSize(lines, (0, true)) == 0
  {
    assert lines[..0] == [];
  }

  /**
   * For every message a sender can send, delivered, too large or cut off: it stays within limit, discard
   * slack and one line exactly when the dot-led lines that are read number no more than those leave over.
   */
  lemma PlainBoundIffFewDots(lines: seq<Bytes>, tail: Bytes, max: nat)
    requires forall l :: l in lines ==> Sendable(l)
    ensures var o := Collect(Encode(lines) + tail, max, [], 0, false);
            var (k, stopped) := Taken(lines, max, 0, 0, false);
            var bound := max + DISCARD_SLACK + MAX_DATA_LINE;
            (o.result == DiscardBudget <==> stopped) &&
            (o.consumed <= bound <==>
             DotLed(lines[..k]) <= bound - |Joined(lines[..k])| - if stopped then 0 else 3)
  {
    hide Collect, Encode, Taken;
    CollectTakes(lines, tail, max, [], 0, false);
  }

  /** Dot-led lines of a stream before its terminator, an overlong line or its end. */
  function DotLedIn(rest: Bytes): nat
    decreases |rest|
  {
    match ReadResult(rest, MAX_DATA_LINE)
    case Line(text) =>
      if Unstuff(text).1 then 0 else (if DotFirst(text) then 1 else 0) + DotLedIn(rest[Consumed(rest)..])
    case _ => 0
  }

  /** One line read: how much stream it takes for how much body. */
  lemma LineCost(rest: Bytes, cap: nat)
    requires ReadResult(rest, cap).Line?
    ensures var text := ReadResult(rest, cap).text;
            |Unstuff(text).0| <= |text| && 0 < Consumed(rest) <= |rest| &&
            |text| + 1 <= Consumed(rest) <= |text| + 2 && |text| < cap &&
            (!Unstuff(text).1 ==> 3 * Consumed(rest) <= 4 * (|Unstuff(text).0| + 2) &&
                                  Consumed(rest) <= |Unstuff(text).0| + 2 + if DotFirst(text) then 1 else 0)
  {
  }

  lemma ConsumedFits(rest: Bytes)
    ensures Consumed(rest) <= |rest|
  {
  }

  /**
   * For any stream at all: a delivered body is within `max`, and what is read before the last line is
   * at most a third more than `max` plus the discard slack (a stuffed dot can add one byte in three).
   */
  lemma {:induction false} ReadingIsBounded(rest: Bytes, max: nat, kept: Bytes, discarded: nat, over: bool)
    requires |kept| <= max && discarded <= DISCARD_SLACK && (!over ==> discarded == 0)
    ensures var o := Collect(rest, max, kept, discarded, over);
            (o.result.Body? ==> |o.result.bytes| <= max && kept <= o.result.bytes) &&
            o.beforeLast <= o.consumed <= |rest| &&
            3 * o.beforeLast <= 4 * (max - |kept| + DISCARD_SLACK - discarded)
    decreases |rest|
  {
    hide ReadResult, Consumed, Unstuff;
    ConsumedFits(rest);
    if ReadResult(rest, MAX_DATA_LINE).Line? {
      LineCost(rest, MAX_DATA_LINE);
      var n := Consumed(rest);
      var (body, end) := Unstuff(ReadResult(rest, MAX_DATA_LINE).text);
      var need := |body| + 2;
      if !end {
        if over {
          if discarded + need <= DISCARD_SLACK {
            ReadingIsBounded(rest[n..], max, kept, discarded + need, true);
          }
        } else if |kept| + need > max {
          ReadingIsBounded(rest[n..], max, kept, discarded + need, true);
        } else {
          ReadingIsBounded(rest[n..], max, kept + body + CRLF, discarded, false);
        }
      }
    }
  }

  /**
   * For any stream at all: what is read before the last line is at most limit plus slack plus one byte
   * for each dot-led line, and the last line takes no more than a line unless it is too long for one.
   */
  lemma {:induction false} ReadingIsBoundedByDots(rest: Bytes, max: nat, kept: Bytes, discarded: nat, over: bool)
    requires |kept| <= max && discarded <= DISCARD_SLACK && (!over ==> discarded == 0)
    ensures var o := Collect(rest, max, kept, discarded, over);
            o.beforeLast <= max - |kept| + DISCARD_SLACK - discarded + DotLedIn(rest) &&
            (o.result != LineTooLong ==> o.consumed <= o.beforeLast + MAX_DATA_LINE)
    decreases |rest|
  {
    hide ReadResult, Consumed, Unstuff, DotFirst;
    ConsumedFits(rest);
    LastLineFits(rest);
    if ReadResult(rest, MAX_DATA_LINE).Line? {
      LineCost(rest, MAX_DATA_LINE);
      var n := Consumed(rest);
      var (body, end) := Unstuff(ReadResult(rest, MAX_DATA_LINE).text);
      var need := |body| + 2;
      if !end {
        if over {
          if discarded + need <= DISCARD_SLACK {
            ReadingIsBoundedByDots(rest[n..], max, kept, discarded + need, true);
          }
        } else if |kept| + need > max {
          ReadingIsBoundedByDots(rest[n..], max, kept, discarded + need, true);
        } else {
          ReadingIsBoundedByDots(rest[n..], max, kept + body + CRLF, discarded, false);
        }
      }
    }
  }

  lemma LastLineFits(rest: Bytes)
    ensures ReadResult(rest, MAX_DATA_LINE) != TooLong ==> Consumed(rest) <= MAX_DATA_LINE
  {
  }

  /** `n` lines that are a single dot. */
  function Dots(n: nat): seq<Bytes> {
    seq(n, _ => [DOT])
  }

  lemma {:induction false} DotsEncode(n: nat)
    ensures |Encode(Dots(n))| == 4 * n + 3 && |Joined(Dots(n))| == 3 * n
  {
    if n > 0 {
      assert Dots(n)[0] == [DOT] && Dots(n)[1..] == Dots(n - 1);
      assert Stuff([DOT]) == [DOT, DOT];
      DotsEncode(n - 1);
    }
  }

  /** Stuffed dots are not counted, so a body of them takes more stream than limit, slack and a line together. */
  lemma StuffedDotsExceedThePlainBound(n: nat)
    requires n > DISCARD_SLACK + MAX_DATA_LINE
    ensures var o := Collect(Encode(Dots(n)), 3 * n, [], 0, false);
            o.result.Body? && o.consumed > 3 * n + DISCARD_SLACK + MAX_DATA_LINE
  {
    hide Collect, Encode, Joined;
    DotsEncode(n);
    assert Sendable([DOT]);
    StuffedLinesComeBack(Dots(n), [], 3 * n);
    assert Encode(Dots(n)) + [] == Encode(Dots(n));
  }

  /** A line over the cap is drained to its LF however long it is. */
  lemma OverlongLineIsDrained(line: Bytes, tail: Bytes, max: int)
    requires LFFree(line) && |line| >= MAX_DATA_LINE
    ensures Collect(line + [LF] + tail, max, [], 0, false) == DataOutcome(LineTooLong, |line| + 1, 0)
  {
    FirstLFOfLine(line, tail);
  }

  // ---------- the reader ----------

  class Reader {
    var input: Bytes
    var pos: nat

    ghost predicate Valid()
      reads this
    {
      pos <= |input|
    }

    ghost function Rest(): Bytes
      reads this
      requires Valid()
    {
      input[pos..]
    }

    constructor (input: Bytes)
      ensures Valid() && Rest() == input
    {
      this.input := input;
      pos := 0;
    }

    method ReadByte() returns (b: Option<byte>)
      requires Valid()
      modifies this`pos
      ensures Valid()
      ensures if old(Rest()) == [] then b.None? && pos == old(pos)
              else b == Some(old(Rest())[0]) && pos == old(pos) + 1
    {
      if pos == |input| {
        b := None;
      } else {
        b := Some(input[pos]);
        pos := pos + 1;
      }
    }

    /** Reads through the next LF, or to the end. */
    method Drain()
      requires Valid()
      modifies this`pos
      ensures Valid() && pos == old(pos) + Consumed(old(Rest()))
    {
      ghost var start := pos;
      var going := true;
      while going
        invariant Valid() && start <= pos
        invariant going ==> forall i :: start <= i < pos ==> input[i] != LF
        invariant !going ==> pos == start + Consumed(input[start..])
        decreases going, |input| - pos
      {
        LFFreePrefix(input, start, pos);
        var b := ReadByte();
        if b.None? || b.value == LF {
          going := false;
        }
      }
    }

    /** One line, without its terminator, at most `cap` bytes with it. */
    method ReadLine(cap: nat) returns (r: LineResult)
      requires Valid() && cap >= 2
      modifies this`pos
      ensures Valid() && r == ReadResult(old(Rest()), cap) && pos == old(pos) + Consumed(old(Rest()))
    {
      hide ReadResult, Consumed, FirstLF, StripCR;
      var buf: Bytes := [];
      ghost var start := pos;
      var done := false;
      r := Eof;
      while !done
        invariant Valid() && start <= pos
        invariant !done ==> |buf| <= cap && pos == start + |buf| && buf == input[start..pos]
        invariant !done ==> forall i :: start <= i < pos ==> input[i] != LF
        invariant done ==> r == ReadResult(input[start..], cap) && pos == start + Consumed(input[start..])
        decreases !done, |input| - pos
      {
        ReadEnds(input, start, pos, cap);
        var b := ReadByte();
        if b.None? {
          r := if |buf| > 0 then UnexpectedEof else Eof;
          done := true;
        } else if |buf| + 1 > cap {
          if b.value != LF {
            Drain();
          }
          r := TooLong;
          done := true;
        } else if b.value == LF {
          r := Line(StripCR(buf));
          done := true;
        } else {
          buf := buf + [b.value];
        }
      }
    }

    method ReadCommandLine() returns (r: LineResult)
      requires Valid()
      modifies this`pos
      ensures Valid() && r == ReadResult(old(Rest()), MAX_COMMAND_LINE) && pos == old(pos) + Consumed(old(Rest()))
    {
      r := ReadLine(MAX_COMMAND_LINE);
    }

    method ReadDataLine() returns (r: LineResult)
      requires Valid()
      modifies this`pos
      ensures Valid() && r == ReadResult(old(Rest()), MAX_DATA_LINE) && pos == old(pos) + Consumed(old(Rest()))
    {
      r := ReadLine(MAX_DATA_LINE);
    }
  }

  /** Each way a read that has seen no LF before `pos` can end at `pos`. */
  lemma ReadEnds(input: Bytes, start: nat, pos: nat, cap: nat)
    requires start <= pos <= |input| && pos - start <= cap
    requires forall i :: start <= i < pos ==> input[i] != LF
    ensures pos == |input| ==>
              ReadResult(input[start..], cap) == (if pos > start then UnexpectedEof else Eof) &&
              pos == start + Consumed(input[start..])
    ensures pos < |input| && pos - start < cap && input[pos] == LF ==>
              ReadResult(input[start..], cap) == Line(StripCR(input[start..pos])) &&
              pos + 1 == start + Consumed(input[start..])
    ensures pos < |input| && pos - start == cap ==> ReadResult(input[start..], cap) == TooLong
    ensures pos < |input| && input[pos] == LF ==> pos + 1 == start + Consumed(input[start..])
    ensures pos < |input| && input[pos] != LF ==>
              pos + 1 + Consumed(input[pos + 1..]) == start + Consumed(input[start..])
  {
    LFFreePrefix(input, start, pos);
    if pos < |input| {
      assert input[start..][..pos - start] == input[start..pos];
      if input[pos] != LF {
        LFFreePrefix(input, start, pos + 1);
        DrainedWithPrefix(input, start, pos + 1);
      }
    }
  }

  /** How far the first LF is, given that there is none before `pos`. */
  lemma LFFreePrefix(input: Bytes, start: nat, pos: nat)
    requires start <= pos <= |input| && forall i :: start <= i < pos ==> input[i] != LF
    ensures FirstLF(input[start..]) >= pos - start
    ensures pos < |input| && input[pos] == LF ==> FirstLF(input[start..]) == pos - start
    ensures pos == |input| ==> FirstLF(input[start..]) == |input| - start
  {
    var n := FirstLF(input[start..]);
    if n < |input| - start {
      assert input[start..][n] == input[start + n];
    }
    if pos < |input| {
      assert input[start..][pos - start] == input[pos];
    }
  }

  lemma DrainedWithPrefix(input: Bytes, start: nat, pos: nat)
    requires start <= pos <= |input| && forall i :: start <= i < pos ==> input[i] != LF
    ensures pos + Consumed(input[pos..]) == start + Consumed(input[start..])
  {
    LFFreePrefix(input, start, pos);
    var n := FirstLF(input[pos..]);
    if n < |input| - pos {
      assert input[pos..][n] == input[pos + n];
      assert forall i :: start <= i < pos + n ==> input[i] != LF by {
        assert forall i :: pos <= i < pos + n ==> input[i] == input[pos..][i - pos];
      }
      LFFreePrefix(input, start, pos + n);
    } else {
      assert forall i :: pos <= i < |input| ==> input[i] == input[pos..][i - pos];
      LFFreePrefix(input, start, |input|);
    }
  }
}
