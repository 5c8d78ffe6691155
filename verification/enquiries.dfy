/** The enquiry recency filter: enquiries dated no earlier than seven days
    before the current time. Times are milliseconds since the epoch; the
    current time and the date parser are parameters. */
module Enquiries {
  import opened Wrappers
  import opened Tree

  const DayMs: int := 24 * 60 * 60 * 1000
  const WindowDays: int := 7

  /** `new Date(text)` as a timestamp; None stands for an invalid date. */
  type DateParser = string -> Option<int>

  /** The earliest time that still counts: seven days before `now`. */
  function Cutoff(now: int): int {
    now - WindowDays * DayMs
  }

  /** The filter's test: a truthy text date that parses to a time no
      earlier than the cutoff. Non-text dates make an invalid date. */
  predicate IsRecent(enq: Val, now: int, parseDate: DateParser) {
    var d := GetText(enq, ["Date", "0"]);
    && Present(d)
    && d.value.Text?
    && parseDate(d.value.s).Some?
    && parseDate(d.value.s).value >= Cutoff(now)
  }

  /** `enquiries.filter(...)`: the recent enquiries, in order, each as often
      as it occurs. */
  function RecentEnquiries(enqs: seq<Val>, now: int, parseDate: DateParser): (r: seq<Val>)
    ensures |r| <= |enqs|
    ensures forall x :: multiset(r)[x] == (if IsRecent(x, now, parseDate) then multiset(enqs)[x] else 0)
  {
    if enqs == [] then []
    else
      var rest := RecentEnquiries(enqs[1..], now, parseDate);
      assert enqs == [enqs[0]] + enqs[1..];
      (if IsRecent(enqs[0], now, parseDate) then [enqs[0]] else []) + rest
  }

  /** A later `now` never counts more enquiries. */
  lemma {:induction false} LaterNowCountsFewer(enqs: seq<Val>, earlier: int, later: int, parseDate: DateParser)
    requires earlier <= later
    ensures |RecentEnquiries(enqs, later, parseDate)| <= |RecentEnquiries(enqs, earlier, parseDate)|
  {
    if enqs != [] {
      LaterNowCountsFewer(enqs[1..], earlier, later, parseDate);
    }
  }

  /** An enquiry element holding one date. */
  function DatedEnquiry(date: string): Val {
    Obj(map["Date" := Arr([Text(date)])])
  }

  /** The window has no upper end: an enquiry dated after `now` counts. */
  lemma FutureEnquiryCounts(date: string, t: int, now: int, parseDate: DateParser)
    requires date != "" && parseDate(date) == Some(t) && t >= now
    ensures IsRecent(DatedEnquiry(date), now, parseDate)
  {
    assert ["Date", "0"][1..] == ["0"];
    assert Resolve(DatedEnquiry(date), ["Date", "0"]) == Some(Text(date));
  }

  /** Enquiries dated today, three days ago and ten days ago: two are recent. */
  lemma TodayThreeAndTenDaysAgo(now: int, parseDate: DateParser)
    requires parseDate("today") == Some(now)
    requires parseDate("three days ago") == Some(now - 3 * DayMs)
    requires parseDate("ten days ago") == Some(now - 10 * DayMs)
    ensures |RecentEnquiries([DatedEnquiry("three days ago"), DatedEnquiry("ten days ago"), DatedEnquiry("today")], now, parseDate)| == 2
  {
    var a, b, c := DatedEnquiry("three days ago"), DatedEnquiry("ten days ago"), DatedEnquiry("today");
    assert ["Date", "0"][1..] == ["0"];
    assert Resolve(a, ["Date", "0"]) == Some(Text("three days ago"));
    assert Resolve(b, ["Date", "0"]) == Some(Text("ten days ago"));
    assert Resolve(c, ["Date", "0"]) == Some(Text("today"));
    assert IsRecent(a, now, parseDate) && !IsRecent(b, now, parseDate) && IsRecent(c, now, parseDate);
    var l := [a, b, c];
    assert l[1..] == [b, c] && [b, c][1..] == [c] && [c][1..] == [];
  }

  /** A dated enquiry counts exactly when its time is no earlier than seven
      days before now: the cutoff instant itself still counts. */
  lemma DatedEnquiryRecent(date: string, t: int, now: int, parseDate: DateParser)
    requires date != "" && parseDate(date) == Some(t)
    ensures IsRecent(DatedEnquiry(date), now, parseDate) <==> t >= now - 7 * DayMs
  {
    assert ["Date", "0"][1..] == ["0"];
    assert Resolve(DatedEnquiry(date), ["Date", "0"]) == Some(Text(date));
  }

  /** An enquiry recent at a later time was recent at every earlier one. */
  lemma RecentIsMonotone(enq: Val, earlier: int, later: int, parseDate: DateParser)
    requires earlier <= later
    ensures IsRecent(enq, later, parseDate) ==> IsRecent(enq, earlier, parseDate)
  {
  }
}
