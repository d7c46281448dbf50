/**
 The `std::set<std::pair<Timestamp, Timer*>>` of TimerQueue.h: entries kept in strictly
 ascending order, first by expiration and then by address.
 */
module TimerSet {

  /** The largest pointer value; no object lives there, which is what the sentry of getExpired relies on. */
  const UINTPTR_MAX: nat := 0xFFFF_FFFF_FFFF_FFFF

  datatype Entry = Entry(when: int, addr: nat)

  predicate Less(a: Entry, b: Entry) {
    a.when < b.when || (a.when == b.when && a.addr < b.addr)
  }

  ghost predicate Ascending(s: seq<Entry>) {
    forall i, j | 0 <= i < j < |s| :: Less(s[i], s[j])
  }

  /** `lower_bound`: the position of the first element that is not below `e`. */
  function LowerBound(s: seq<Entry>, e: Entry): (i: nat)
    ensures i <= |s|
    ensures forall k | 0 <= k < i :: Less(s[k], e)
    ensures i < |s| ==> !Less(s[i], e)
  {
    if s == [] || !Less(s[0], e) then 0 else 1 + LowerBound(s[1..], e)
  }

  function Insert(s: seq<Entry>, e: Entry): seq<Entry> {
    var i := LowerBound(s, e);
    if i < |s| && s[i] == e then s else s[..i] + [e] + s[i..]
  }

  function Erase(s: seq<Entry>, e: Entry): seq<Entry> {
    var i := LowerBound(s, e);
    if i < |s| && s[i] == e then s[..i] + s[i + 1..] else s
  }

  /** Everything from the lower bound on is above `e`, save an occurrence of `e` itself. */
  lemma LowerBoundSplits(s: seq<Entry>, e: Entry)
    requires Ascending(s)
    ensures forall k | LowerBound(s, e) <= k < |s| :: s[k] == e || Less(e, s[k])
    ensures forall k | LowerBound(s, e) < k < |s| :: Less(e, s[k])
    ensures e in s <==> LowerBound(s, e) < |s| && s[LowerBound(s, e)] == e
  {
    var i := LowerBound(s, e);
    forall k | i <= k < |s| ensures (s[k] == e || Less(e, s[k])) && (k > i ==> Less(e, s[k])) {
      assert k > i ==> Less(s[i], s[k]);
    }
  }

  lemma InsertOrder(s: seq<Entry>, e: Entry)
    requires Ascending(s)
    ensures Ascending(Insert(s, e))
    ensures Insert(s, e) != []
    ensures Insert(s, e)[0].when == if s == [] || e.when < s[0].when then e.when else s[0].when
  {
    LowerBoundSplits(s, e);
  }

  /** Inserting adds exactly the new entry. */
  lemma InsertMembers(s: seq<Entry>, e: Entry)
    requires Ascending(s)
    ensures forall x :: x in Insert(s, e) <==> x in s || x == e
    ensures |Insert(s, e)| == if e in s then |s| else |s| + 1
  {
    LowerBoundSplits(s, e);
    var i := LowerBound(s, e);
    forall x ensures x in Insert(s, e) <==> x in s || x == e {
      assert s == s[..i] + s[i..];
      assert x in s <==> x in s[..i] || x in s[i..];
    }
  }

  lemma EraseOrder(s: seq<Entry>, e: Entry)
    requires Ascending(s)
    ensures Ascending(Erase(s, e))
    ensures Erase(s, e) != [] ==> s != [] && Erase(s, e)[0].when >= s[0].when
  {
    LowerBoundSplits(s, e);
  }

  /** Erasing removes exactly that entry. */
  lemma EraseMembers(s: seq<Entry>, e: Entry)
    requires Ascending(s)
    ensures forall x :: x in Erase(s, e) <==> x in s && x != e
    ensures |Erase(s, e)| == if e in s then |s| - 1 else |s|
  {
    LowerBoundSplits(s, e);
    var i := LowerBound(s, e);
    if e in s {
      forall x ensures x in Erase(s, e) <==> x in s && x != e {
        assert s == s[..i] + ([e] + s[i + 1..]);
        assert x in s <==> x in s[..i] || x == e || x in s[i + 1..];
      }
    }
  }

  /** The sentry (now, UINTPTR_MAX) splits the set exactly at `now`. */
  lemma SentrySplits(s: seq<Entry>, now: int)
    requires Ascending(s)
    requires forall x | x in s :: x.addr < UINTPTR_MAX
    ensures var end := LowerBound(s, Entry(now, UINTPTR_MAX));
            && (forall k | 0 <= k < end :: s[k].when <= now)
            && (forall k | end <= k < |s| :: s[k].when > now)
  {
    var e := Entry(now, UINTPTR_MAX);
    assert e !in s;
    LowerBoundSplits(s, e);
  }
}
