/**
 * The listing of frontend/src/pages/Index.tsx: upcoming events (date not
 * before the current time), narrowed by a case-insensitive search on title
 * and location, sorted by ascending date; and the "N events found" label.
 *
 * Lower-casing is ASCII only; the current time is a parameter.
 */
module IndexPage {
  import opened EventTypes
  import opened Seqs

  // ---------------------------------------------------------------------
  // Text: `toLowerCase` and `includes`

  function LowerChar(c: char): char {
    if 'A' <= c <= 'Z' then (c as int + 32) as char else c
  }

  /** `s.toLowerCase()` on ASCII letters: every character lowered, length kept. */
  function Lower(s: string): (r: string)
    ensures |r| == |s|
    ensures forall i :: 0 <= i < |s| ==> r[i] == LowerChar(s[i])
  {
    if s == [] then [] else [LowerChar(s[0])] + Lower(s[1..])
  }

  /** Lower-casing leaves no upper-case letter and lower-casing again changes nothing. */
  lemma LowerLaws(s: string)
    ensures forall i :: 0 <= i < |s| ==> !('A' <= Lower(s)[i] <= 'Z')
    ensures Lower(Lower(s)) == Lower(s)
  {
  }

  /** `sub` occurs in `s` starting at position `i`. */
  ghost predicate OccursAt(s: string, sub: string, i: int) {
    0 <= i && i + |sub| <= |s| && s[i..i + |sub|] == sub
  }

  /** `s.includes(sub)`: tries each starting position from the left. */
  function Includes(s: string, sub: string): bool
    decreases |s|
  {
    if |sub| > |s| then false
    else if s[..|sub|] == sub then true
    else Includes(s[1..], sub)
  }

  /** Occurrences in `s` past its first position are occurrences in its tail, shifted by one. */
  lemma OccursShift(s: string, sub: string, i: int)
    requires |s| > 0 && i >= 1
    ensures OccursAt(s, sub, i) <==> OccursAt(s[1..], sub, i - 1)
  {
    if i + |sub| <= |s| {
      var a, b := s[i..i + |sub|], s[1..][i - 1..i - 1 + |sub|];
      assert |a| == |b|;
      forall k | 0 <= k < |a| ensures a[k] == b[k] {
        assert a[k] == s[i + k];
        assert b[k] == s[1..][i - 1 + k];
      }
      assert a == b;
    }
  }

  /** `Includes` holds exactly when `sub` occurs somewhere in `s`. */
  lemma {:induction false} IncludesSpec(s: string, sub: string)
    ensures Includes(s, sub) <==> exists i :: OccursAt(s, sub, i)
    decreases |s|
  {
    if |sub| > |s| {
    } else if s[..|sub|] == sub {
      assert OccursAt(s, sub, 0);
    } else {
      IncludesSpec(s[1..], sub);
      if Includes(s[1..], sub) {
        var j :| OccursAt(s[1..], sub, j);
        OccursShift(s, sub, j + 1);
      } else {
        forall i | OccursAt(s, sub, i) ensures false {
          assert i != 0;
          OccursShift(s, sub, i);
        }
      }
    }
  }

  /** The empty string is included in every string. */
  lemma IncludesEmpty(s: string)
    ensures Includes(s, "")
  {
  }

  // ---------------------------------------------------------------------
  // The two filters

  /** `new Date(event.date) >= new Date()`. */
  predicate IsUpcoming(e: Event, now: Timestamp) {
    e.date >= now
  }

  /** The lower-cased title or the lower-cased location includes the lower-cased query. */
  predicate MatchesSearch(e: Event, query: string) {
    Includes(Lower(e.title), Lower(query)) || Includes(Lower(e.location), Lower(query))
  }

  // ---------------------------------------------------------------------
  // The sort: `(a, b) => a.date - b.date`, stable

  ghost predicate SortedByDate(s: seq<Event>) {
    forall i, j :: 0 <= i < j < |s| ==> s[i].date <= s[j].date
  }

  /** Inserts `x` before the first element whose date is not earlier. */
  function Insert(x: Event, s: seq<Event>): (r: seq<Event>)
    ensures multiset(r) == multiset(s) + multiset{x}
  {
    if s == [] || x.date <= s[0].date then [x] + s
    else
      assert s == [s[0]] + s[1..];
      [s[0]] + Insert(x, s[1..])
  }

  /** Every event of `s` is dated `d` or later. */
  ghost predicate AllFrom(s: seq<Event>, d: Timestamp) {
    forall k :: 0 <= k < |s| ==> d <= s[k].date
  }

  /** Inserting an event dated `d` or later keeps every event dated `d` or later. */
  lemma {:induction false} InsertKeepsBound(x: Event, s: seq<Event>, d: Timestamp)
    requires AllFrom(s, d) && d <= x.date
    ensures AllFrom(Insert(x, s), d)
  {
    if s != [] && x.date > s[0].date {
      InsertKeepsBound(x, s[1..], d);
      var r := Insert(x, s);
      assert r == [s[0]] + Insert(x, s[1..]);
    }
  }

  /** Inserting into a sorted list keeps it sorted. */
  lemma {:induction false} InsertSorted(x: Event, s: seq<Event>)
    requires SortedByDate(s)
    ensures SortedByDate(Insert(x, s))
  {
    if s == [] || x.date <= s[0].date {
      var r := [x] + s;
      forall i, j | 0 <= i < j < |r| ensures r[i].date <= r[j].date {
        if i > 0 {
          assert r[i] == s[i - 1] && r[j] == s[j - 1];
        } else {
          assert r[j] == s[j - 1];
        }
      }
    } else {
      var rest := Insert(x, s[1..]);
      InsertSorted(x, s[1..]);
      InsertKeepsBound(x, s[1..], s[0].date);
      var r := [s[0]] + rest;
      forall i, j | 0 <= i < j < |r| ensures r[i].date <= r[j].date {
        if i == 0 {
          assert r[j] == rest[j - 1];
        } else {
          assert r[i] == rest[i - 1] && r[j] == rest[j - 1];
        }
      }
    }
  }

  /** Insertion sort by date: the result is sorted and a permutation of the input. */
  function SortByDate(s: seq<Event>): (r: seq<Event>)
    ensures SortedByDate(r)
    ensures multiset(r) == multiset(s)
  {
    if s == [] then []
    else
      assert s == [s[0]] + s[1..];
      var rest := SortByDate(s[1..]);
      InsertSorted(s[0], rest);
      Insert(s[0], rest)
  }

  // ---------------------------------------------------------------------
  // upcomingEvents (Index.tsx:16-22)

  /**
   * The listing: sorted by date, and holding each event of the store exactly
   * as often as the store does when it is upcoming and matches the search,
   * and not at all otherwise.
   */
  function UpcomingEvents(events: seq<Event>, now: Timestamp, query: string): (r: seq<Event>)
    ensures SortedByDate(r)
    ensures forall e :: multiset(r)[e] ==
              if IsUpcoming(e, now) && MatchesSearch(e, query) then multiset(events)[e] else 0
  {
    var upcoming := Filter(events, (e: Event) => IsUpcoming(e, now));
    var found := Filter(upcoming, (e: Event) => MatchesSearch(e, query));
    SortByDate(found)
  }

  /** The listing holds nothing the store does not (no event added or duplicated), and nothing past. */
  lemma UpcomingWithinStore(events: seq<Event>, now: Timestamp, query: string)
    ensures multiset(UpcomingEvents(events, now, query)) <= multiset(events)
    ensures forall i :: 0 <= i < |UpcomingEvents(events, now, query)| ==>
              UpcomingEvents(events, now, query)[i].date >= now
  {
    var r := UpcomingEvents(events, now, query);
    forall i | 0 <= i < |r| ensures r[i].date >= now {
      assert multiset(r)[r[i]] > 0;
    }
  }

  /** The lower-cased query occurs somewhere in the lower-cased text. */
  ghost predicate QueryOccursIn(text: string, query: string) {
    exists i :: OccursAt(Lower(text), Lower(query), i)
  }

  /** The search predicate, in terms of where the lower-cased query occurs. */
  lemma MatchesSearchSpec(e: Event, query: string)
    ensures MatchesSearch(e, query) <==> QueryOccursIn(e.title, query) || QueryOccursIn(e.location, query)
  {
    IncludesSpec(Lower(e.title), Lower(query));
    IncludesSpec(Lower(e.location), Lower(query));
  }

  /** An event is listed iff it is in the store, upcoming, and the query occurs in its lower-cased title or location. */
  lemma UpcomingMembers(events: seq<Event>, now: Timestamp, query: string, e: Event)
    ensures e in UpcomingEvents(events, now, query) <==>
              e in events && e.date >= now && (QueryOccursIn(e.title, query) || QueryOccursIn(e.location, query))
  {
    var r := UpcomingEvents(events, now, query);
    assert e in r <==> multiset(r)[e] > 0;
    assert e in events <==> multiset(events)[e] > 0;
    MatchesSearchSpec(e, query);
  }

  /** With an empty query every upcoming event is listed, as often as the store holds it. */
  lemma EmptyQueryKeepsAllUpcoming(events: seq<Event>, now: Timestamp)
    ensures forall e :: multiset(UpcomingEvents(events, now, ""))[e] ==
              if e.date >= now then multiset(events)[e] else 0
  {
    forall e: Event ensures MatchesSearch(e, "") {
      IncludesEmpty(Lower(e.title));
    }
  }

  /** The search ignores the case of the query: lower-casing it first gives the same listing. */
  lemma SearchIgnoresQueryCase(events: seq<Event>, now: Timestamp, query: string)
    ensures UpcomingEvents(events, now, query) == UpcomingEvents(events, now, Lower(query))
  {
    LowerLaws(query);
    var upcoming := Filter(events, (e: Event) => IsUpcoming(e, now));
    FilterCongruent(upcoming, (e: Event) => MatchesSearch(e, query),
                    (e: Event) => MatchesSearch(e, Lower(query)));
  }

  // ---------------------------------------------------------------------
  // The count label (Index.tsx:110-114)

  function DigitChar(d: nat): char
    requires d < 10
  {
    ('0' as int + d) as char
  }

  /** Decimal digits of `n`, as JavaScript prints a non-negative integer. */
  function NatToString(n: nat): string
    decreases n
  {
    if n < 10 then [DigitChar(n)] else NatToString(n / 10) + [DigitChar(n % 10)]
  }

  ghost predicate IsDigits(s: string) {
    forall i :: 0 <= i < |s| ==> '0' <= s[i] <= '9'
  }

  /** The number a string of decimal digits denotes. */
  function ParseDigits(s: string): nat
    requires IsDigits(s)
  {
    if s == [] then 0 else ParseDigits(s[..|s| - 1]) * 10 + (s[|s| - 1] as int - '0' as int)
  }

  /** The printed count is a non-empty string of digits that reads back as the count. */
  lemma {:induction false} NatToStringRoundTrip(n: nat)
    ensures |NatToString(n)| >= 1 && IsDigits(NatToString(n))
    ensures ParseDigits(NatToString(n)) == n
    decreases n
  {
    if n >= 10 {
      NatToStringRoundTrip(n / 10);
      var s := NatToString(n);
      assert s[..|s| - 1] == NatToString(n / 10);
    }
  }

  /** `{n} event{n !== 1 ? 's' : ''} found`, shown only when `n > 0`. */
  function CountLabel(n: nat): (r: Option<string>)
    ensures r.None? <==> n == 0
    ensures n == 1 ==> r == Some("1 event found")
    ensures n >= 2 ==> r == Some(NatToString(n) + " events found")
  {
    if n == 0 then None
    else
      var plural := if n != 1 then "s" else "";
      var r := NatToString(n) + " event" + plural + " found";
      assert n == 1 ==> NatToString(n) == "1" && r == "1 event found";
      assert " event" + "s" + " found" == " events found";
      assert n >= 2 ==> r == NatToString(n) + (" event" + "s" + " found");
      Some(r)
  }
}
