/** MIDI time code: a master sends quarter-frame messages, eight for every two frames; what the parser
    reports after each of them (MIDI 1.0 Detailed Specification, "Quarter Frame Messages"). */
module MidiTimecode {
  import opened Basics
  import opened Bytes
  import opened MidiParser

  /** The frame rates without drop frames, by their two-bit codes. */
  predicate NonDrop(code: nat) {
    code == 0 || code == 1 || code == 3
  }

  /** Frames in a day. */
  function Day(code: nat): (d: nat)
    requires NonDrop(code)
    ensures d > 0 && d % 2 == 0
  {
    86400 * FrameType(code)
  }

  /** A time by the seconds since midnight, on a clock that counts hours on past 23. */
  function At(rate: byte, second: nat, frame: nat, quarter: nat): (m: Mtc)
    requires second < 90000 && frame < rate && quarter < 4
    ensures m.minutes < 60 && m.seconds < 60 && m.frames < m.timeCodeType && m.qframes < 4 && m.direction == 1
  {
    Mtc(second / 60 / 60, second / 60 % 60, second % 60, frame, quarter, 1, rate)
  }

  /** The time that is `quarter` quarter frames after midnight. */
  function Clock(code: nat, quarter: nat): (m: Mtc)
    requires NonDrop(code) && quarter < 4 * Day(code) + 256
    ensures m.minutes < 60 && m.seconds < 60 && m.frames < m.timeCodeType && m.qframes < 4 && m.direction == 1
  {
    var rate, frame := FrameType(code), quarter / 4;
    At(rate, frame / rate, frame % rate, quarter % 4)
  }

  /** The frame whose time the master sends in its `cycle`-th cycle of eight messages. */
  function FrameOf(code: nat, start: nat, cycle: nat): (n: nat)
    requires NonDrop(code)
    ensures n < Day(code)
  {
    (start + 2 * cycle) % Day(code)
  }

  /** The field of a time that pieces `ix` and its neighbour carry; the hours carry the rate code as well. */
  function Field(t: Mtc, code: nat, ix: nat): byte
    requires t.hours < 24 && code < 4
  {
    if ix < 2 then t.frames else if ix < 4 then t.seconds else if ix < 6 then t.minutes else t.hours + 32 * code
  }

  /** The low half of a field, then its high half. */
  function Nibble(field: byte, ix: nat): (n: nat)
    ensures n < 16
  {
    if ix % 2 == 0 then field % 16 else field / 16
  }

  /** Piece `ix` of a time. */
  function Piece(t: Mtc, code: nat, ix: nat): byte
    requires t.hours < 24 && code < 4 && ix < 8
  {
    16 * ix + Nibble(Field(t, code, ix), ix)
  }

  /** The time of a frame of the day. */
  function TimeOf(code: nat, frame: nat): (t: Mtc)
    requires NonDrop(code) && frame < Day(code)
    ensures Sendable(t, code)
  {
    HoursBounded(code, frame);
    Clock(code, 4 * frame)
  }

  /** A time of the day, at the beginning of a frame. */
  predicate Sendable(t: Mtc, code: nat) {
    && NonDrop(code) && t.timeCodeType == FrameType(code) && t.direction == 1 && t.qframes == 0
    && t.hours < 24 && t.minutes < 60 && t.seconds < 60 && t.frames < t.timeCodeType
  }

  function DataByte(code: nat, start: nat, k: nat): byte
    requires NonDrop(code)
  {
    Piece(TimeOf(code, FrameOf(code, start, k / 8)), code, k % 8)
  }

  /** The master's first `n` messages. */
  function Stream(code: nat, start: nat, n: nat): seq<byte>
    requires NonDrop(code)
  {
    if n == 0 then [] else Stream(code, start, n - 1) + [241, DataByte(code, start, n - 1)]
  }

  /** Adding to a field and carrying into the next. */
  lemma Carry(x: nat, a: nat, r: nat)
    requires r == 24 || r == 25 || r == 30 || r == 60
    ensures x / r + (x % r + a) / r == (x + a) / r && (x % r + a) % r == (x + a) % r
  {
  }

  /** The carry out of a frame or seconds field is at most 1. */
  lemma SmallCarry(x: nat, r: nat)
    requires (r == 24 || r == 25 || r == 30 || r == 60) && x < 2 * r
    ensures x / r == (if x < r then 0 else 1) && x % r == if x < r then x else x - r
  {
    if r == 24 {
    } else if r == 25 {
    } else if r == 30 {
    }
  }

  /** A time `a` frames later, and the quarter frame in it. */
  function Later(m: Mtc, a: nat, quarter: nat): Mtc
    requires m.timeCodeType >= 24 && m.hours < 24 && quarter < 4
    requires m.minutes < 60 && m.seconds < 60 && m.frames < m.timeCodeType && a < 4
  {
    var rate, f := m.timeCodeType, m.frames + a;
    var c1 := if f < rate then 0 else 1;
    var c2 := (m.seconds + c1) / 60;
    var c3 := (m.minutes + c2) / 60;
    Mtc(m.hours + c3, (m.minutes + c2) % 60, (m.seconds + c1) % 60, if f < rate then f else f - rate, quarter, 1, rate)
  }

  lemma Unwrapped(x: nat)
    requires x < 256
    ensures x % 256 == x
  {
  }

  /** No byte wraps while the offset is added. */
  lemma ReportedIsLater(st: MtcState, code: nat)
    requires Sendable(st.mtc, code) && 0 <= st.offset < 16
    ensures ReportedTime(st) == Later(st.mtc, st.offset / 4, st.offset % 4)
  {
    var m, f := st.mtc, st.mtc.frames + st.offset / 4;
    Unwrapped(st.offset);
    Unwrapped(f);
    SmallCarry(f, m.timeCodeType);
    var c1 := if f < m.timeCodeType then 0 else 1;
    Unwrapped(m.seconds + c1);
    var c2 := (m.seconds + c1) / 60;
    Unwrapped(m.minutes + c2);
    Unwrapped(m.hours + (m.minutes + c2) / 60);
  }

  lemma AtLater(rate: byte, second: nat, f: nat, a: nat, quarter: nat, second': nat, f': nat)
    requires rate >= 24 && second < 86400 && f < rate && a < 4 && quarter < 4
    requires if f + a < rate then second' == second && f' == f + a else second' == second + 1 && f' == f + a - rate
    ensures At(rate, second, f, 0).hours < 24
    ensures Later(At(rate, second, f, 0), a, quarter) == At(rate, second', f', quarter)
  {
  }

  /** The frame some frames later, in seconds and frames. */
  lemma NextSecond(rate: byte, frame: nat, a: nat)
    requires (rate == 24 || rate == 25 || rate == 30) && frame < 86400 * rate && a < 4
    ensures frame / rate < 86400 && (frame + a) / rate < 90000
    ensures var f := frame % rate;
      && (frame + a) / rate == (if f + a < rate then frame / rate else frame / rate + 1)
      && (frame + a) % rate == if f + a < rate then f + a else f + a - rate
  {
    Carry(frame, a, rate);
    SmallCarry(frame % rate + a, rate);
    if rate == 24 {
    } else if rate == 25 {
    }
  }

  lemma AtIsLater(rate: byte, frame: nat, a: nat, quarter: nat)
    requires (rate == 24 || rate == 25 || rate == 30) && frame < 86400 * rate && a < 4 && quarter < 4
    ensures frame / rate < 86400 && (frame + a) / rate < 90000 && At(rate, frame / rate, frame % rate, 0).hours < 24
    ensures Later(At(rate, frame / rate, frame % rate, 0), a, quarter)
      == At(rate, (frame + a) / rate, (frame + a) % rate, quarter)
  {
    NextSecond(rate, frame, a);
    AtLater(rate, frame / rate, frame % rate, a, quarter, (frame + a) / rate, (frame + a) % rate);
  }

  lemma Quarters(frame: nat, quarter: nat)
    requires quarter < 4
    ensures (4 * frame + quarter) / 4 == frame && (4 * frame + quarter) % 4 == quarter
  {
  }

  lemma ClockReadsAt(code: nat, frame: nat, quarter: nat)
    requires NonDrop(code) && frame < Day(code) + 4 && quarter < 4 && frame / FrameType(code) < 90000
    ensures Clock(code, 4 * frame + quarter)
      == At(FrameType(code), frame / FrameType(code), frame % FrameType(code), quarter)
  {
    Quarters(frame, quarter);
  }

  lemma TimeReadsAt(code: nat, frame: nat)
    requires NonDrop(code) && frame < Day(code)
    ensures frame / FrameType(code) < 90000
    ensures TimeOf(code, frame) == At(FrameType(code), frame / FrameType(code), frame % FrameType(code), 0)
  {
    NextSecond(FrameType(code), frame, 0);
    Quarters(frame, 0);
  }

  lemma ClockIsLater(code: nat, frame: nat, a: nat, quarter: nat, m: Mtc)
    requires NonDrop(code) && frame < Day(code) && a < 4 && quarter < 4
    requires var rate := FrameType(code);
      frame / rate < 90000 && m == At(rate, frame / rate, frame % rate, 0) && m.hours < 24
    ensures Clock(code, 4 * (frame + a) + quarter) == Later(m, a, quarter)
  {
    AtIsLater(FrameType(code), frame, a, quarter);
    ClockReadsAt(code, frame + a, quarter);
  }

  /** A complete time code plus `offset` quarter frames is that many quarter frames later. */
  lemma ReportIsClock(code: nat, frame: nat, st: MtcState)
    requires NonDrop(code) && frame < Day(code) && 0 <= st.offset < 16 && st.mtc == TimeOf(code, frame)
    ensures ReportedTime(st) == Clock(code, 4 * frame + st.offset)
  {
    ReportedIsLater(st, code);
    TimeReadsAt(code, frame);
    ClockIsLater(code, frame, st.offset / 4, st.offset % 4, st.mtc);
    assert 4 * (frame + st.offset / 4) + st.offset % 4 == 4 * frame + st.offset;
  }

  lemma HoursBounded(code: nat, frame: nat)
    requires NonDrop(code) && frame < Day(code)
    ensures Clock(code, 4 * frame).hours < 24
  {
    var second := frame / FrameType(code);
    assert second < 86400;
  }

  /** Two nibbles make a byte. */
  lemma Joined(field: byte)
    ensures OrHigh(field % 16, field / 16) == field
  {
    OrAdds(field % 16, 16 * (field / 16), 16);
  }

  /** The record while a cycle is being received: pieces `0 .. ix` of the time are in. */
  ghost predicate Received(t: Mtc, ix: nat, m: Mtc)
    requires ix < 8
  {
    && m.qframes == 0
    && m.frames == (if ix == 0 then t.frames % 16 else t.frames)
    && (ix >= 2 ==> m.seconds == if ix == 2 then t.seconds % 16 else t.seconds)
    && (ix >= 4 ==> m.minutes == if ix == 4 then t.minutes % 16 else t.minutes)
    && (ix >= 6 ==> m.hours == if ix == 6 then t.hours % 16 else t.hours)
    && (ix == 7 ==> m.timeCodeType == t.timeCodeType)
  }

  lemma PieceNibbles(t: Mtc, code: nat, ix: nat)
    requires t.hours < 24 && code < 4 && ix < 8
    ensures Piece(t, code, ix) / 16 == ix && Piece(t, code, ix) % 16 == Nibble(Field(t, code, ix), ix)
  {
    Nibbles(ix, Nibble(Field(t, code, ix), ix));
  }

  /** The two halves of a field make it up again. */
  lemma PiecesJoin(t: Mtc, code: nat, ix: nat)
    requires Sendable(t, code) && ix < 8 && ix % 2 == 1
    ensures var joined := OrHigh(Field(t, code, ix) % 16, Nibble(Field(t, code, ix), ix));
      if ix < 7 then joined == Field(t, code, ix) else joined / 32 % 4 == code && joined % 32 == t.hours
  {
    Joined(Field(t, code, ix));
    TypeAndHours(code, t.hours, t.hours + 32 * code);
  }

  lemma StoreReceives(t: Mtc, code: nat, ix: nat, st: MtcState)
    requires Sendable(t, code) && ix < 8 && (ix > 0 ==> Received(t, ix - 1, st.mtc0))
    ensures var after := StorePiece(st, ix, Nibble(Field(t, code, ix), ix));
      && Received(t, ix, after.mtc0)
      && after == st.(mtc0 := after.mtc0, mtc := if ix == 7 then after.mtc0 else st.mtc)
      && after.mtc0.direction == st.mtc0.direction
  {
    if ix % 2 == 1 {
      StoreHigh(t, code, ix, st);
    } else if ix == 6 {
      TypeAndHours(code, t.hours, t.hours + 32 * code);
    }
  }

  lemma StoreHigh(t: Mtc, code: nat, ix: nat, st: MtcState)
    requires Sendable(t, code) && ix < 8 && ix % 2 == 1 && Received(t, ix - 1, st.mtc0)
    ensures var after := StorePiece(st, ix, Nibble(Field(t, code, ix), ix));
      && Received(t, ix, after.mtc0)
      && after == st.(mtc0 := after.mtc0, mtc := if ix == 7 then after.mtc0 else st.mtc)
      && after.mtc0.direction == st.mtc0.direction
  {
    PiecesJoin(t, code, ix);
    TypeAndHours(code, t.hours, t.hours + 32 * code);
  }

  /** The hours field carries the rate code in its bits 5 and 6. */
  lemma TypeAndHours(code: nat, hours: nat, field: nat)
    requires code < 4 && hours < 32 && field == hours + 32 * code
    ensures field / 32 % 4 == code && field % 32 == hours && field % 16 == hours % 16
  {
  }

  /** After the master's first `n` messages, from the end of its first cycle on. */
  ghost predicate Following(code: nat, start: nat, n: nat, st: MtcState)
    requires NonDrop(code) && n > 0
  {
    var k := n - 1;
    && st.started && st.prevIx == k % 8
    && Received(TimeOf(code, FrameOf(code, start, k / 8)), k % 8, st.mtc0)
    && (n > 1 ==> st.mtc0.direction == st.mtc.direction == 1)
    && (n >= 8 ==> st.offset == 7 + (n - 8) % 8 && st.mtc == TimeOf(code, FrameOf(code, start, (n - 8) / 8)))
  }

  lemma FirstMessage(code: nat, start: nat, st: MtcState)
    requires NonDrop(code) && -1 <= st.prevIx
    ensures var (after, calls) := MtcMessage(st, DataByte(code, start, 0));
      Following(code, start, 1, after) && |calls| == 1
  {
    var begun := MtcMessage(st, DataByte(code, start, 0)).0;
    var t := TimeOf(code, FrameOf(code, start, 0));
    PieceNibbles(t, code, 0);
    StoreReceives(t, code, 0, begun);
  }

  /** One message, once reporting has begun. */
  lemma MessageStores(t: Mtc, code: nat, ix: nat, st: MtcState)
    requires Sendable(t, code) && ix < 8 && st.started && st.prevIx == (ix + 7) % 8
    requires ix > 0 ==> Received(t, ix - 1, st.mtc0)
    ensures var (after, calls) := MtcMessage(st, Piece(t, code, ix));
      && after.started && after.prevIx == ix && Received(t, ix, after.mtc0)
      && after.offset == (if ix == 7 then 7 else st.offset + 1)
      && after.mtc == (if ix == 7 then t else st.mtc.(direction := 1)) && after.mtc0.direction == 1
      && calls == [TimeCode(ReportedTime(after))]
  {
    PieceNibbles(t, code, ix);
    assert Direction(st.prevIx, ix) == 1;
    var turned := st.(mtc := st.mtc.(direction := 1), mtc0 := st.mtc0.(direction := 1), prevIx := ix);
    StoreReceives(t, code, ix, turned);
  }

  /** Where message `n` stands: in its cycle, and behind the one that is reported from. */
  lemma Places(n: nat)
    requires n > 0
    ensures (n - 1) % 8 == (n % 8 + 7) % 8 && (n % 8 > 0 ==> n / 8 == (n - 1) / 8 && n % 8 - 1 == (n - 1) % 8)
    ensures n >= 7 && n % 8 == 7 ==> (n - 7) / 8 == n / 8 && (n - 7) % 8 == 0
    ensures n >= 7 && n % 8 != 7 ==> n >= 8 && (n - 7) / 8 == (n - 8) / 8 && (n - 7) % 8 == (n - 8) % 8 + 1
  {
  }

  lemma NextMessage(code: nat, start: nat, n: nat, st: MtcState)
    requires NonDrop(code) && n > 0 && Following(code, start, n, st)
    ensures var (after, calls) := MtcMessage(st, DataByte(code, start, n));
      && Following(code, start, n + 1, after) && calls == [TimeCode(ReportedTime(after))]
  {
    Places(n);
    MessageStores(TimeOf(code, FrameOf(code, start, n / 8)), code, n % 8, st);
  }

  lemma FollowingReports(code: nat, start: nat, n: nat, st: MtcState)
    requires NonDrop(code) && n >= 7 && Following(code, start, n + 1, st)
    ensures ReportedTime(st) == Clock(code, Reported(code, start, n))
  {
    var frame := FrameOf(code, start, (n - 7) / 8);
    assert n + 1 - 8 == n - 7;
    assert st.mtc == TimeOf(code, frame) && st.offset == 7 + (n - 7) % 8;
    ReportIsClock(code, frame, st);
  }

  /** The quarter frame that the callback for message `k` reports. */
  function Reported(code: nat, start: nat, k: nat): nat
    requires NonDrop(code) && k >= 7
  {
    4 * FrameOf(code, start, (k - 7) / 8) + 7 + (k - 7) % 8
  }

  /** The quarter frame at which message `k` is sent, modulo 24 hours. */
  function TrueQuarter(code: nat, start: nat, k: nat): nat
    requires NonDrop(code)
  {
    (4 * start + k) % (4 * Day(code))
  }

  /** The reported quarter frame is the true one, or 24 hours later after midnight. */
  lemma ReportedQuarter(code: nat, start: nat, k: nat)
    requires NonDrop(code) && k >= 7
    ensures var q := Reported(code, start, k);
      TrueQuarter(code, start, k) == if q < 4 * Day(code) then q else q - 4 * Day(code)
  {
    var c, d := (k - 7) / 8, Day(code);
    assert k == 8 * c + 7 + (k - 7) % 8;
    var x, days := start + 2 * c, (start + 2 * c) / d;
    assert x == days * d + x % d;
    assert 4 * start + k == 4 * (x % d) + 7 + (k - 7) % 8 + days * (4 * d);
    ModuloDays(Reported(code, start, k), days, 4 * d);
  }

  lemma ModuloDays(q: nat, days: nat, d: nat)
    requires d > 0 && q < 2 * d
    ensures (q + days * d) % d == if q < d then q else q - d
  {
    var r := if q < d then q else q - d;
    var n := if q < d then days else days + 1;
    assert q + days * d == r + n * d;
    Remainder(r, n, d);
  }

  lemma Remainder(r: nat, n: nat, d: nat)
    requires r < d
    ensures (r + n * d) % d == r
  {
    var x := r + n * d;
    assert x == x / d * d + x % d;
    if x / d < n {
      Times(x / d + 1, n, d);
    } else if x / d > n {
      Times(n + 1, x / d, d);
    }
  }

  lemma Times(a: nat, b: nat, d: nat)
    requires a <= b
    ensures a * d <= b * d
  {
  }

  /** Two different quarter frames of the day and the next hour read differently. */
  lemma DaysDiffer(code: nat, q: nat)
    requires NonDrop(code) && 4 * Day(code) <= q < 4 * Day(code) + 256
    ensures Clock(code, q).hours == 24
    ensures Clock(code, q - 4 * Day(code)).hours == 0
  {
    var second := q / 4 / FrameType(code);
    assert 86400 <= second < 86400 + 60;
  }

  /** One F1 and data byte fed to the parser. */
  lemma FeedQuarterFrame(p: Parser, data: byte)
    requires p.Valid() && p.hasMtc && data < 128
    ensures Feed(p, [241, data]) == (p.(f1Flag := false, mtc := MtcMessage(p.mtc, data).0), MtcMessage(p.mtc, data).1)
  {
    FeedOneMore(p, [241], data);
    FeedOne(p, 241);
    assert [241] + [data] == [241, data];
    var calls := MtcMessage(p.mtc, data).1;
    assert Step(p, 241) == (p.(f1Flag := true), []) && [] + calls == calls;
  }

  lemma StreamStep(p: Parser, code: nat, start: nat, n: nat)
    requires p.Valid() && p.hasMtc && NonDrop(code)
    ensures var q := Feed(p, Stream(code, start, n)).0;
      q.hasMtc ==>
        var (mtc, calls) := MtcMessage(q.mtc, DataByte(code, start, n));
        Feed(p, Stream(code, start, n + 1))
          == (q.(f1Flag := false, mtc := mtc), Feed(p, Stream(code, start, n)).1 + calls)
  {
    var data, before := DataByte(code, start, n), Stream(code, start, n);
    DataBytesSmall(code, start, n);
    FeedConcat(p, before, [241, data]);
    if Feed(p, before).0.hasMtc {
      FeedQuarterFrame(Feed(p, before).0, data);
    }
  }

  /** The report for message `k`, once a whole cycle has been received. */
  predicate IsReport(code: nat, start: nat, k: nat, call: Callback)
    requires NonDrop(code)
  {
    k >= 7 ==> call == TimeCode(Clock(code, Reported(code, start, k)))
  }

  ghost predicate AllReports(code: nat, start: nat, n: nat, calls: seq<Callback>)
    requires NonDrop(code)
  {
    |calls| == n && forall k :: 0 <= k < n ==> IsReport(code, start, k, calls[k])
  }

  lemma OneReportMore(code: nat, start: nat, n: nat, calls: seq<Callback>, more: seq<Callback>)
    requires NonDrop(code) && AllReports(code, start, n, calls) && |more| == 1 && IsReport(code, start, n, more[0])
    ensures AllReports(code, start, n + 1, calls + more)
  {
  }

  /** One callback for each of the first `n` messages, and a parser in step after them. */
  ghost predicate Heard(code: nat, start: nat, n: nat, heard: (Parser, seq<Callback>))
    requires NonDrop(code) && n > 0
  {
    && heard.0.Valid() && heard.0.hasMtc && Following(code, start, n, heard.0.mtc)
    && AllReports(code, start, n, heard.1)
  }

  lemma HearFirst(p: Parser, code: nat, start: nat)
    requires p.Valid() && p.hasMtc && NonDrop(code)
    ensures Heard(code, start, 1, Feed(p, Stream(code, start, 1)))
  {
    StreamStep(p, code, start, 0);
    FirstMessage(code, start, p.mtc);
  }

  lemma HearOneMore(code: nat, start: nat, n: nat, heard: (Parser, seq<Callback>), more: (Parser, seq<Callback>))
    requires NonDrop(code) && n > 0 && Heard(code, start, n, heard)
    requires var (mtc, calls) := MtcMessage(heard.0.mtc, DataByte(code, start, n));
      more == (heard.0.(f1Flag := false, mtc := mtc), heard.1 + calls)
    ensures Heard(code, start, n + 1, more)
  {
    NextMessage(code, start, n, heard.0.mtc);
    if n >= 7 {
      FollowingReports(code, start, n, more.0.mtc);
    }
    OneReportMore(code, start, n, heard.1, [TimeCode(ReportedTime(more.0.mtc))]);
  }

  lemma {:induction false} StreamFollowed(p: Parser, code: nat, start: nat, n: nat)
    requires p.Valid() && p.hasMtc && NonDrop(code) && n > 0
    ensures Heard(code, start, n, Feed(p, Stream(code, start, n)))
  {
    if n == 1 {
      HearFirst(p, code, start);
    } else {
      StreamFollowed(p, code, start, n - 1);
      StreamStep(p, code, start, n - 1);
      HearOneMore(code, start, n - 1, Feed(p, Stream(code, start, n - 1)), Feed(p, Stream(code, start, n)));
    }
  }

  lemma DataBytesSmall(code: nat, start: nat, k: nat)
    requires NonDrop(code)
    ensures DataByte(code, start, k) < 128
  {
    PieceNibbles(TimeOf(code, FrameOf(code, start, k / 8)), code, k % 8);
  }

  /** Time code follows the master. Whatever the parser has seen before, after the first complete cycle
      every message of a 24, 25 or 30 frame master (no drop frames) makes one callback, and the callback
      for message `k` reports the true time, with all fields normalised, if and only if the cycle it
      counts from does not run past midnight; there it reports hour 24 instead of hour 0. */
  lemma TimeFollowsMaster(p: Parser, code: nat, start: nat, n: nat, k: nat)
    requires p.Valid() && p.hasMtc && NonDrop(code) && 7 <= k < n
    ensures var calls := Feed(p, Stream(code, start, n)).1;
      && |calls| == n
      && (calls[k] == TimeCode(Clock(code, TrueQuarter(code, start, k))) <==> Reported(code, start, k) < 4 * Day(code))
      && (Reported(code, start, k) >= 4 * Day(code) ==>
            calls[k] == TimeCode(Clock(code, TrueQuarter(code, start, k)).(hours := 24)))
  {
    StreamFollowed(p, code, start, n);
    assert IsReport(code, start, k, Feed(p, Stream(code, start, n)).1[k]);
    ReportedQuarter(code, start, k);
    var q := Reported(code, start, k);
    if q >= 4 * Day(code) {
      DaysDiffer(code, q);
      NextDay(code, q);
    }
  }

  /** The quarter frames that a time stands for. */
  function QuarterOf(m: Mtc): nat {
    (((m.hours as nat * 60 + m.minutes) * 60 + m.seconds) * m.timeCodeType + m.frames) * 4 + m.qframes
  }

  /** A clock reads the quarter frames it counts. */
  lemma ClockReads(code: nat, q: nat)
    requires NonDrop(code) && q < 4 * Day(code) + 256
    ensures QuarterOf(Clock(code, q)) == q
  {
    var second := q / 4 / FrameType(code);
    assert (second / 60 / 60 * 60 + second / 60 % 60) * 60 + second % 60 == second;
    FramesRead(code, q / 4, second);
  }

  lemma FramesRead(code: nat, frame: nat, second: nat)
    requires NonDrop(code) && second == frame / FrameType(code)
    ensures second * FrameType(code) + frame % FrameType(code) == frame
  {
  }

  /** The last message of a cycle is followed by the first of the next; that one may be of the next day. */
  predicate DayEnds(code: nat, start: nat, k: nat)
    requires NonDrop(code) && k >= 7
  {
    (k - 7) % 8 == 7 && FrameOf(code, start, (k - 7) / 8) + 2 >= Day(code)
  }

  /** The frame of the next cycle. */
  lemma NextFrame(code: nat, start: nat, cycle: nat)
    requires NonDrop(code)
    ensures var f := FrameOf(code, start, cycle);
      FrameOf(code, start, cycle + 1) == if f + 2 < Day(code) then f + 2 else f + 2 - Day(code)
  {
    var x, d := start + 2 * cycle, Day(code);
    assert x + 2 == x % d + 2 + x / d * d;
    ModuloDays(x % d + 2, x / d, d);
  }

  lemma NextReported(code: nat, start: nat, k: nat)
    requires NonDrop(code) && k >= 7
    ensures Reported(code, start, k + 1)
      == Reported(code, start, k) + 1 - if DayEnds(code, start, k) then 4 * Day(code) else 0
  {
    if (k - 7) % 8 == 7 {
      assert (k - 6) / 8 == (k - 7) / 8 + 1 && (k - 6) % 8 == 0;
      NextFrame(code, start, (k - 7) / 8);
    } else {
      assert (k - 6) / 8 == (k - 7) / 8 && (k - 6) % 8 == (k - 7) % 8 + 1;
    }
  }

  /** Between one reported time and the next lies exactly one quarter frame, but where a cycle that ran past
      midnight is replaced by one of the new day: there the time goes back 24 hours less a quarter frame. */
  lemma QuarterFrameApart(p: Parser, code: nat, start: nat, n: nat, k: nat)
    requires p.Valid() && p.hasMtc && NonDrop(code) && 7 <= k && k + 1 < n
    ensures var calls := Feed(p, Stream(code, start, n)).1;
      && |calls| == n && calls[k].TimeCode? && calls[k + 1].TimeCode?
      && QuarterOf(calls[k + 1].mtc) ==
         QuarterOf(calls[k].mtc) + 1 - if DayEnds(code, start, k) then 4 * Day(code) else 0
  {
    StreamFollowed(p, code, start, n);
    var calls := Feed(p, Stream(code, start, n)).1;
    assert IsReport(code, start, k, calls[k]) && IsReport(code, start, k + 1, calls[k + 1]);
    NextReported(code, start, k);
    ClockReads(code, Reported(code, start, k));
    ClockReads(code, Reported(code, start, k + 1));
  }

  /** Past midnight the clock differs in the hours only. */
  lemma NextDay(code: nat, q: nat)
    requires NonDrop(code) && 4 * Day(code) <= q < 4 * Day(code) + 16
    ensures Clock(code, q) == Clock(code, q - 4 * Day(code)).(hours := 24)
  {
    var r := q - 4 * Day(code);
    DaysDiffer(code, q);
    assert q / 4 == r / 4 + Day(code) && q % 4 == r % 4;
    FrameShift(code, r / 4);
    assert (r / 4 / FrameType(code) + 86400) / 60 == r / 4 / FrameType(code) / 60 + 1440;
  }

  lemma FrameShift(code: nat, frame: nat)
    requires NonDrop(code)
    ensures (frame + Day(code)) / FrameType(code) == frame / FrameType(code) + 86400
    ensures (frame + Day(code)) % FrameType(code) == frame % FrameType(code)
  {
    if code == 0 {
      assert (frame + 86400 * 24) / 24 == frame / 24 + 86400;
    } else if code == 1 {
      assert (frame + 86400 * 25) / 25 == frame / 25 + 86400;
    } else {
      assert (frame + 86400 * 30) / 30 == frame / 30 + 86400;
    }
  }
}
