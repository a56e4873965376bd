/**
  The per-trip classification both tracker tables apply to every row
  (src/app/tracker/blocks/page.client.tsx:84-91 and
  src/app/tracker/route/page.client.tsx:60-67, which repeats it verbatim):
  start and end delays, "cancelled", "untracked", the colour markers and the
  two cell texts.
*/
module TripStatus {
  import opened Wrappers
  import opened TimeCodec

  /** The fields of a trip row the classification reads. */
  datatype Observed = Observed(
    scheduledStartTime: string,
    scheduledEndTime: string,
    actualStartTime: Option<string>,
    actualEndTime: Option<string>,
    delay: Option<int>,
    canceled: Option<int>)

  /** Scheduled times, and whichever actual times are present, can be read part by part. */
  predicate Readable(o: Observed)
  {
    && WellFormed(o.scheduledStartTime) && WellFormed(o.scheduledEndTime)
    && (Truthy(o.actualStartTime) ==> WellFormed(o.actualStartTime.value))
    && (Truthy(o.actualEndTime) ==> WellFormed(o.actualEndTime.value))
  }

  predicate AllReadable(rows: seq<Observed>)
  {
    forall i :: 0 <= i < |rows| ==> Readable(rows[i])
  }

  /** A numeric feed flag is truthy when present and not 0. */
  predicate FlagSet(flag: Option<int>)
  {
    flag.Some? && flag.value != 0
  }

  /** `delayStart`, in seconds. */
  function DelayStart(o: Observed): int
    requires Readable(o)
  {
    if Truthy(o.actualStartTime) then Diff(o.actualStartTime.value, o.scheduledStartTime) else 0
  }

  /** `delayEnd`, in seconds: measured when the trip has ended, otherwise the feed's delay in minutes. */
  function DelayEnd(o: Observed): int
    requires Readable(o)
  {
    if Truthy(o.actualEndTime) then Diff(o.actualEndTime.value, o.scheduledEndTime) else o.delay.GetOr(0) * 60
  }

  /** `canceled`: flagged by the feed and never started. */
  predicate Canceled(o: Observed)
  {
    FlagSet(o.canceled) && !Truthy(o.actualStartTime)
  }

  /** Some row after `index` has an actual start. */
  predicate LaterStarted(rows: seq<Observed>, index: nat)
  {
    exists i :: index < i < |rows| && Truthy(rows[i].actualStartTime)
  }

  /**
    `untracked`: not flagged, not started, and either a later row has
    started, the table is not for today, or the scheduled end is more than an
    hour before `now`.
  */
  predicate Untracked(rows: seq<Observed>, index: nat, isToday: bool, now: string)
    requires index < |rows| && Readable(rows[index]) && WellFormed(now)
  {
    var o := rows[index];
    && !FlagSet(o.canceled)
    && !Truthy(o.actualStartTime)
    && (LaterStarted(rows, index) || !isToday || Diff(now, o.scheduledEndTime) > 60 * 60)
  }

  /**
    The class names of a delay cell (start or end): a red marker above 15
    minutes, then a yellow one above 5.
  */
  function DelayClass(delay: int): (r: string)
    ensures delay > 15 * 60 ==> r == "red-text yellow-text"
    ensures 5 * 60 < delay <= 15 * 60 ==> r == "yellow-text"
    ensures delay <= 5 * 60 ==> r == ""
  {
    (if delay > 15 * 60 then "red-text " else "") + (if delay > 5 * 60 then "yellow-text" else "")
  }

  /** The text of the "Actual start" cell. */
  function StartCell(rows: seq<Observed>, index: nat, isToday: bool, now: string): string
    requires index < |rows| && Readable(rows[index]) && WellFormed(now)
  {
    var o := rows[index];
    if Untracked(rows, index, isToday, now) then "UNTRACKED"
    else if Canceled(o) then "CANCELLED"
    else StartText(o)
  }

  /** The start cell of a row that is neither untracked nor cancelled: the actual start, and its delay when late. */
  function StartText(o: Observed): string
    requires Readable(o)
  {
    o.actualStartTime.GetOr("")
    + (if Truthy(o.actualStartTime) && DelayStart(o) > 0 then DelayBracket(DelayStart(o)) else "")
  }

  /** The first part of the "Actual end" cell; `??` keeps an empty actual end. */
  function EndHead(o: Observed): string
  {
    if o.actualEndTime.Some? then o.actualEndTime.value else if FlagSet(o.delay) then "Active" else ""
  }

  /** The end delay in brackets, or nothing when it is 0. */
  function DelayBracket(d: int): string
  {
    if d != 0 then " (" + MinuteAndSeconds(d) + ")" else ""
  }

  /** The text of the "Actual end" cell: its first part, then the end delay in brackets. */
  function EndCell(o: Observed): string
    requires Readable(o)
  {
    EndHead(o) + DelayBracket(DelayEnd(o))
  }

  /** A row is never both cancelled and untracked; untracked rows carry no flag and no actual start. */
  lemma CanceledAndUntrackedExclusive(rows: seq<Observed>, index: nat, isToday: bool, now: string)
    requires index < |rows| && Readable(rows[index]) && WellFormed(now)
    ensures Untracked(rows, index, isToday, now) ==> !FlagSet(rows[index].canceled) && !Truthy(rows[index].actualStartTime)
    ensures !(Canceled(rows[index]) && Untracked(rows, index, isToday, now))
  {
  }

  /** A row that has started is neither cancelled nor untracked, and its start delay is the measured one. */
  lemma StartedRow(rows: seq<Observed>, index: nat, isToday: bool, now: string)
    requires index < |rows| && Readable(rows[index]) && WellFormed(now)
    requires Truthy(rows[index].actualStartTime)
    ensures !Canceled(rows[index]) && !Untracked(rows, index, isToday, now)
    ensures DelayStart(rows[index]) == ToSeconds(rows[index].actualStartTime.value) - ToSeconds(rows[index].scheduledStartTime)
  {
    DiffIsSecondsDifference(rows[index].actualStartTime.value, rows[index].scheduledStartTime);
  }

  /** Without an actual start the start delay is 0; without an actual end the end delay is the feed's minutes times 60. */
  lemma DelayDefaults(o: Observed)
    requires Readable(o)
    ensures !Truthy(o.actualStartTime) ==> DelayStart(o) == 0
    ensures !Truthy(o.actualEndTime) ==> DelayEnd(o) == o.delay.GetOr(0) * 60
    ensures Truthy(o.actualEndTime) ==> DelayEnd(o) == ToSeconds(o.actualEndTime.value) - ToSeconds(o.scheduledEndTime)
  {
    if Truthy(o.actualEndTime) {
      DiffIsSecondsDifference(o.actualEndTime.value, o.scheduledEndTime);
    }
  }

  /** The last row of a table for today is untracked only when it has not started and ended more than an hour ago. */
  lemma LastRowUntracked(rows: seq<Observed>, isToday: bool, now: string)
    requires |rows| > 0 && Readable(rows[|rows| - 1]) && WellFormed(now)
    ensures var o := rows[|rows| - 1];
      Untracked(rows, |rows| - 1, isToday, now)
      <==> !FlagSet(o.canceled) && !Truthy(o.actualStartTime) && (!isToday || Diff(now, o.scheduledEndTime) > 3600)
  {
  }

  /** A row before a started row is untracked exactly when it is neither flagged nor started. */
  lemma EarlierThanStartedRow(rows: seq<Observed>, index: nat, later: nat, isToday: bool, now: string)
    requires index < later < |rows| && Readable(rows[index]) && WellFormed(now)
    requires Truthy(rows[later].actualStartTime)
    ensures Untracked(rows, index, isToday, now) <==> !FlagSet(rows[index].canceled) && !Truthy(rows[index].actualStartTime)
  {
  }

  /** A delay cell is marked at all exactly above 300 seconds, and red exactly above 900, always together with yellow. */
  lemma DelayClassThresholds(delay: int)
    ensures |DelayClass(delay)| > 0 <==> delay > 300
    ensures (|DelayClass(delay)| > 0 && DelayClass(delay)[0] == 'r') <==> delay > 900
    ensures |DelayClass(delay)| > 0 ==> DelayClass(delay)[|DelayClass(delay)| - 11..] == "yellow-text"
  {
  }

  /**
    The end cell opens with "Active" exactly for a trip with no actual end
    and a set delay flag, and with the actual end when there is one.
  */
  lemma EndCellOpening(o: Observed)
    requires Readable(o)
    ensures (|EndCell(o)| >= 6 && EndCell(o)[..6] == "Active") <==> o.actualEndTime.None? && FlagSet(o.delay)
    ensures o.actualEndTime.Some? ==> o.actualEndTime.value <= EndCell(o)
  {
    var c, head := EndCell(o), EndHead(o);
    var tail := c[|head|..];
    assert c == head + tail;
    assert tail == [] || tail[0] == ' ';
    if o.actualEndTime.Some? {
      assert c[..|head|] == head;
    }
    if !(o.actualEndTime.None? && FlagSet(o.delay)) && |c| >= 6 {
      if Truthy(o.actualEndTime) {
        assert c[0] == head[0] && head[0] != 'A';
      } else {
        assert head == "" && c[0] == ' ';
      }
      assert c[..6][0] == c[0];
    }
  }

  /**
    The end cell is just its first part exactly when the end delay is 0.
    Otherwise the bracket holds the delay as `secondsToMinuteAndSeconds`
    writes it, which reads back as the delay when it is positive, and a
    minute too negative for an early arrival that is not a whole number of
    minutes.
  */
  lemma EndCellBracket(o: Observed)
    requires Readable(o)
    ensures EndCell(o) == EndHead(o) <==> DelayEnd(o) == 0
    ensures EndHead(o) <= EndCell(o)
    ensures DelayEnd(o) != 0 ==>
      var b := EndCell(o)[|EndHead(o)|..];
      && |b| >= 3 && b[..2] == " (" && b[|b| - 1] == ')'
      && ReadMinuteAndSeconds(b[2..|b| - 1])
         == Some(if DelayEnd(o) >= 0 || DelayEnd(o) % 60 == 0 then DelayEnd(o) else DelayEnd(o) - 60)
  {
    EndCellParts(o);
    DelayBracketText(DelayEnd(o));
  }

  /** The end cell is its first part followed by the bracket of the end delay. */
  lemma EndCellParts(o: Observed)
    requires Readable(o)
    ensures EndHead(o) <= EndCell(o)
    ensures EndCell(o)[|EndHead(o)|..] == DelayBracket(DelayEnd(o))
  {
    var c, head := EndCell(o), EndHead(o);
    assert c[..|head|] == head;
    assert c[|head|..] == DelayBracket(DelayEnd(o));
  }

  /** The bracket is empty exactly for a zero delay; otherwise it holds the delay text, read back as `ReadsBack` says. */
  lemma DelayBracketText(d: int)
    ensures DelayBracket(d) == "" <==> d == 0
    ensures d != 0 ==>
      var b := DelayBracket(d);
      && |b| >= 3 && b[..2] == " (" && b[|b| - 1] == ')'
      && ReadMinuteAndSeconds(b[2..|b| - 1]) == Some(if d >= 0 || d % 60 == 0 then d else d - 60)
  {
    if d != 0 {
      var m := MinuteAndSeconds(d);
      var b := DelayBracket(d);
      assert b == " (" + m + ")";
      assert b[2..|b| - 1] == m;
      ReadsBack(d);
    }
  }

  /** The delay text read back, for either sign. */
  lemma ReadsBack(d: int)
    ensures ReadMinuteAndSeconds(MinuteAndSeconds(d)) == Some(if d >= 0 || d % 60 == 0 then d else d - 60)
  {
    if d >= 0 {
      MinuteAndSecondsRoundTrip(d);
    } else {
      MinuteAndSecondsNegative(d);
    }
  }

  /** An actual start time, with or without its delay text, is neither keyword of the start cell. */
  lemma TimeTextIsNoKeyword(a: string, rest: string)
    requires WellFormed(a) || (a == "" && rest == "")
    ensures a + rest != "UNTRACKED" && a + rest != "CANCELLED"
  {
    if a != "" {
      assert (a + rest)[0] == a[0];
    }
  }

  /**
    The start cell says "UNTRACKED" exactly for untracked rows, and
    otherwise "CANCELLED" exactly for cancelled ones.
  */
  lemma StartCellKeywords(rows: seq<Observed>, index: nat, isToday: bool, now: string)
    requires index < |rows| && Readable(rows[index]) && WellFormed(now)
    ensures StartCell(rows, index, isToday, now) == "UNTRACKED" <==> Untracked(rows, index, isToday, now)
    ensures !Untracked(rows, index, isToday, now) ==>
      (StartCell(rows, index, isToday, now) == "CANCELLED" <==> Canceled(rows[index]))
  {
    var o := rows[index];
    CanceledAndUntrackedExclusive(rows, index, isToday, now);
    if !Untracked(rows, index, isToday, now) && !Canceled(o) {
      var a := o.actualStartTime.GetOr("");
      var rest := if Truthy(o.actualStartTime) && DelayStart(o) > 0 then DelayBracket(DelayStart(o)) else "";
      assert StartCell(rows, index, isToday, now) == StartText(o) == a + rest;
      TimeTextIsNoKeyword(a, rest);
    }
  }

  /**
    A row that is neither untracked nor cancelled shows its actual start
    (empty when there is none), followed by a bracket exactly when the trip
    started late; the bracket's text reads back as the start delay.
  */
  lemma StartCellTime(rows: seq<Observed>, index: nat, isToday: bool, now: string)
    requires index < |rows| && Readable(rows[index]) && WellFormed(now)
    requires !Untracked(rows, index, isToday, now) && !Canceled(rows[index])
    ensures var o, c := rows[index], StartCell(rows, index, isToday, now);
      var a := o.actualStartTime.GetOr("");
      && a <= c
      && (c == a <==> !(Truthy(o.actualStartTime) && DelayStart(o) > 0))
      && (Truthy(o.actualStartTime) && DelayStart(o) > 0 ==>
            var b := c[|a|..];
            && |b| >= 3 && b[..2] == " (" && b[|b| - 1] == ')'
            && ReadMinuteAndSeconds(b[2..|b| - 1]) == Some(DelayStart(o)))
  {
    var o := rows[index];
    assert StartCell(rows, index, isToday, now) == StartText(o);
    StartTextParts(o);
    DelayBracketText(DelayStart(o));
  }

  /** The start text is the actual start, then the bracket of the start delay exactly when the trip started late. */
  lemma StartTextParts(o: Observed)
    requires Readable(o)
    ensures var c, a := StartText(o), o.actualStartTime.GetOr("");
      && a <= c
      && (Truthy(o.actualStartTime) && DelayStart(o) > 0 ==> c[|a|..] == DelayBracket(DelayStart(o)) && c != a)
      && (!(Truthy(o.actualStartTime) && DelayStart(o) > 0) ==> c == a)
  {
    var c, a := StartText(o), o.actualStartTime.GetOr("");
    assert c[..|a|] == a;
    if Truthy(o.actualStartTime) && DelayStart(o) > 0 {
      assert c[|a|..] == DelayBracket(DelayStart(o));
      DelayBracketText(DelayStart(o));
    }
  }
}
