/**
 The import planner: which records of a file become new items and which replace the
 secrets of an existing one, and which titles are reported as ambiguous.
 */
module ImportPlan {
  import opened Prelude
  import opened Shape

  datatype CanonicalRecord = CanonicalRecord(title: Text, username: Text, record: ItemRecord)
  datatype Identity = Native | AddOnly
  datatype PlannedUpdate = PlannedUpdate(itemId: u32, title: Text, username: Text, record: ItemRecord)
  datatype ImportedPlan = ImportedPlan(
    adds: seq<CanonicalRecord>, updates: seq<PlannedUpdate>, collisions: seq<(Text, nat)>, skipped: nat)

  function FileCount(rs: seq<CanonicalRecord>, t: Text): nat {
    if rs == [] then 0 else FileCount(rs[..|rs| - 1], t) + if rs[|rs| - 1].title == t then 1 else 0
  }

  /** The live entries with a title, in index order. */
  function LiveWith(es: seq<IndexEntry>, t: Text): (r: seq<IndexEntry>)
    ensures forall e :: e in r <==> e in es && e.state == LIVE && e.title == t
  {
    if es == [] then []
    else
      var last := es[|es| - 1];
      assert es == es[..|es| - 1] + [last];
      LiveWith(es[..|es| - 1], t) + if last.state == LIVE && last.title == t then [last] else []
  }

  /** A record replaces an item only if its title is unique in the file and among the live items. */
  predicate Updates(es: seq<IndexEntry>, all: seq<CanonicalRecord>, mode: Identity, r: CanonicalRecord) {
    mode == Native && FileCount(all, r.title) <= 1 && |LiveWith(es, r.title)| == 1
  }

  /** Titles the planner reports. */
  predicate Ambiguous(es: seq<IndexEntry>, all: seq<CanonicalRecord>, mode: Identity, t: Text) {
    FileCount(all, t) > 1 || |LiveWith(es, t)| > if mode == AddOnly then 0 else 1
  }

  function CollisionCount(es: seq<IndexEntry>, all: seq<CanonicalRecord>, mode: Identity, t: Text): nat {
    if mode == AddOnly then |LiveWith(es, t)| + (if FileCount(all, t) > 0 then FileCount(all, t) - 1 else 0)
    else if FileCount(all, t) > 1 then FileCount(all, t) else |LiveWith(es, t)|
  }

  function UpdateFor(es: seq<IndexEntry>, r: CanonicalRecord): PlannedUpdate
    requires |LiveWith(es, r.title)| == 1
  {
    var target := LiveWith(es, r.title)[0];
    PlannedUpdate(target.itemId, target.title, target.username, r.record)
  }

  function AddsOf(es: seq<IndexEntry>, all: seq<CanonicalRecord>, mode: Identity, n: nat): seq<CanonicalRecord>
    requires n <= |all|
  {
    if n == 0 then []
    else AddsOf(es, all, mode, n - 1) + if Updates(es, all, mode, all[n - 1]) then [] else [all[n - 1]]
  }

  function UpdatesOf(es: seq<IndexEntry>, all: seq<CanonicalRecord>, mode: Identity, n: nat): seq<PlannedUpdate>
    requires n <= |all|
  {
    if n == 0 then []
    else
      var front := UpdatesOf(es, all, mode, n - 1);
      if Updates(es, all, mode, all[n - 1]) then front + [UpdateFor(es, all[n - 1])] else front
  }

  // --------------------------------------------------------------- the planner

  method CountTitles(rs: seq<CanonicalRecord>) returns (counts: map<Text, nat>)
    ensures forall t :: (t in counts <==> FileCount(rs, t) > 0) && (t in counts ==> counts[t] == FileCount(rs, t))
  {
    counts := map[];
    for i := 0 to |rs|
      invariant forall t ::
                  && (t in counts <==> FileCount(rs[..i], t) > 0)
                  && (t in counts ==> counts[t] == FileCount(rs[..i], t))
    {
      assert rs[..i + 1][..i] == rs[..i];
      var t := rs[i].title;
      counts := counts[t := (if t in counts then counts[t] else 0) + 1];
    }
    assert rs[..|rs|] == rs;
  }

  method LiveMatches(es: seq<IndexEntry>, t: Text) returns (live: seq<IndexEntry>)
    ensures live == LiveWith(es, t)
  {
    live := [];
    for i := 0 to |es|
      invariant live == LiveWith(es[..i], t)
    {
      assert es[..i + 1][..i] == es[..i];
      if es[i].state == LIVE && es[i].title == t {
        live := live + [es[i]];
      }
    }
    assert es[..|es|] == es;
  }

  ghost predicate Known(cs: seq<(Text, nat)>, t: Text) {
    exists k :: 0 <= k < |cs| && cs[k].0 == t
  }

  lemma KnownPush(cs: seq<(Text, nat)>, t: Text, count: nat)
    ensures forall u :: Known(cs + [(t, count)], u) <==> Known(cs, u) || u == t
  {
    var next := cs + [(t, count)];
    assert next[|cs|].0 == t;
    forall u | Known(cs, u)
      ensures Known(next, u)
    {
      var k :| 0 <= k < |cs| && cs[k].0 == u;
      assert next[k].0 == u;
    }
  }

  ghost predicate Occurs(all: seq<CanonicalRecord>, n: nat, t: Text)
    requires n <= |all|
  {
    exists i :: 0 <= i < n && all[i].title == t
  }

  /** The collisions of the first `n` records, each title once, where it first appears. */
  ghost predicate CollisionsFor(es: seq<IndexEntry>, all: seq<CanonicalRecord>, mode: Identity, n: nat,
                                cs: seq<(Text, nat)>)
    requires n <= |all|
  {
    && (forall i, j :: 0 <= i < j < |cs| ==> cs[i].0 != cs[j].0)
    && (forall k :: 0 <= k < |cs| ==>
         && Ambiguous(es, all, mode, cs[k].0)
         && cs[k].1 == CollisionCount(es, all, mode, cs[k].0)
         && Occurs(all, n, cs[k].0))
    && (forall i :: 0 <= i < n && Ambiguous(es, all, mode, all[i].title) ==> Known(cs, all[i].title))
  }

  /**
   `build_plan`: the records that update and the records that add, each in file order,
   and exactly the ambiguous titles of the file, once each.
   */
  method BuildPlan(es: seq<IndexEntry>, all: seq<CanonicalRecord>, mode: Identity,
                   skipped: nat) returns (plan: ImportedPlan)
    ensures plan.adds == AddsOf(es, all, mode, |all|)
    ensures plan.updates == UpdatesOf(es, all, mode, |all|)
    ensures CollisionsFor(es, all, mode, |all|, plan.collisions)
    ensures plan.skipped == skipped
    ensures forall i: nat, p: nat :: SoleMatch(es, all, mode, i, p) ==>
              PlannedUpdate(es[p].itemId, es[p].title, es[p].username, all[i].record) in plan.updates
    ensures forall i: nat :: i < |all| && !HasMatch(es, all, mode, i) ==> all[i] in plan.adds
    ensures |plan.updates| == |Matched(es, all, mode, |all|)| && |plan.adds| + |plan.updates| == |all|
  {
    PlanIsExact(es, all, mode);
    hide FileCount, LiveWith, CollisionsFor, Known, SoleMatch, HasMatch, Matched;
    var counts := CountTitles(all);
    var adds: seq<CanonicalRecord> := [];
    var updates: seq<PlannedUpdate> := [];
    var collisions: seq<(Text, nat)> := [];
    var collided: set<Text> := {};
    NoCollisionsYet(es, all, mode);
    for i := 0 to |all|
      invariant adds == AddsOf(es, all, mode, i)
      invariant updates == UpdatesOf(es, all, mode, i)
      invariant CollisionsFor(es, all, mode, i, collisions)
      invariant forall t :: t in collided <==> Known(collisions, t)
    {
      var r := all[i];
      FileCountsItself(all, i);
      var duplicates := if r.title in counts then counts[r.title] else 0;
      var live := LiveMatches(es, r.title);
      var count := 0;
      if mode == AddOnly {
        count := |live| + if duplicates > 0 then duplicates - 1 else 0;
        adds := adds + [r];
      } else if duplicates > 1 {
        count := duplicates;
        adds := adds + [r];
      } else if |live| == 0 {
        adds := adds + [r];
      } else if |live| == 1 {
        updates := updates + [PlannedUpdate(live[0].itemId, live[0].title, live[0].username, r.record)];
      } else {
        count := |live|;
        adds := adds + [r];
      }
      assert count > 0 <==> Ambiguous(es, all, mode, r.title);
      NextCollision(es, all, mode, i, collisions, count);
      KnownPush(collisions, r.title, count);
      if count > 0 && r.title !in collided {
        collided := collided + {r.title};
        collisions := collisions + [(r.title, count)];
      }
    }
    return ImportedPlan(adds, updates, collisions, skipped);
  }

  lemma NoCollisionsYet(es: seq<IndexEntry>, all: seq<CanonicalRecord>, mode: Identity)
    ensures CollisionsFor(es, all, mode, 0, []) && forall t :: !Known([], t)
  {
  }

  lemma {:induction false} FileCountsItself(rs: seq<CanonicalRecord>, i: nat)
    requires i < |rs|
    ensures FileCount(rs, rs[i].title) >= 1
  {
    if i < |rs| - 1 {
      FileCountsItself(rs[..|rs| - 1], i);
      assert rs[..|rs| - 1][i] == rs[i];
    }
  }

  lemma NextCollision(es: seq<IndexEntry>, all: seq<CanonicalRecord>, mode: Identity, i: nat, cs: seq<(Text, nat)>,
                      count: nat)
    requires i < |all| && CollisionsFor(es, all, mode, i, cs)
    requires Ambiguous(es, all, mode, all[i].title) ==> count == CollisionCount(es, all, mode, all[i].title)
    ensures var t := all[i].title;
            CollisionsFor(es, all, mode, i + 1,
                          if Ambiguous(es, all, mode, t) && !Known(cs, t) then cs + [(t, count)] else cs)
  {
    hide Ambiguous, CollisionCount, Known, Occurs;
    var t := all[i].title;
    OccursLater(all, i);
    if Ambiguous(es, all, mode, t) && !Known(cs, t) {
      KnownPush(cs, t, count);
      forall k | 0 <= k < |cs|
        ensures cs[k].0 != t
      {
        KnownAt(cs, k);
      }
    }
  }

  lemma KnownAt(cs: seq<(Text, nat)>, k: nat)
    requires k < |cs|
    ensures Known(cs, cs[k].0)
  {
  }

  lemma OccursLater(all: seq<CanonicalRecord>, n: nat)
    requires n < |all|
    ensures forall t :: Occurs(all, n, t) ==> Occurs(all, n + 1, t)
    ensures Occurs(all, n + 1, all[n].title)
  {
  }

  // ----------------------------------------------------- what the plan guarantees

  /**
   Adds and updates together are the file's records, in order: record `i` is the next
   add or the next update after those of the records before it.
   */
  lemma {:induction false} PlanCoversFile(es: seq<IndexEntry>, all: seq<CanonicalRecord>, mode: Identity, n: nat,
                                          i: nat)
    requires i < n <= |all|
    ensures |AddsOf(es, all, mode, n)| + |UpdatesOf(es, all, mode, n)| == n
    ensures var (a, u) := (|AddsOf(es, all, mode, i)|, |UpdatesOf(es, all, mode, i)|);
            && a + u == i
            && if Updates(es, all, mode, all[i])
               then u < |UpdatesOf(es, all, mode, n)| && UpdatesOf(es, all, mode, n)[u] == UpdateFor(es, all[i])
               else a < |AddsOf(es, all, mode, n)| && AddsOf(es, all, mode, n)[a] == all[i]
  {
    hide Updates, LiveWith, UpdateFor;
    if i < n - 1 {
      PlanCoversFile(es, all, mode, n - 1, i);
    } else if i > 0 {
      PlanCoversFile(es, all, mode, i, 0);
    }
  }

  /** An update's target is the one live entry with the record's title, and the title is unique in the file. */
  lemma {:induction false} UpdateTargets(es: seq<IndexEntry>, all: seq<CanonicalRecord>, mode: Identity, n: nat, k: nat)
    returns (i: nat)
    requires n <= |all| && k < |UpdatesOf(es, all, mode, n)|
    ensures i < n && mode == Native && FileCount(all, all[i].title) == 1 && |LiveWith(es, all[i].title)| == 1
    ensures UpdatesOf(es, all, mode, n)[k] == UpdateFor(es, all[i]) && |UpdatesOf(es, all, mode, i)| == k
    ensures var target := LiveWith(es, all[i].title)[0];
            && target in es && target.itemId == UpdatesOf(es, all, mode, n)[k].itemId
            && (forall e :: e in es && e.state == LIVE && e.title == all[i].title ==> e == target)
  {
    hide LiveWith, FileCount;
    if k < |UpdatesOf(es, all, mode, n - 1)| {
      i := UpdateTargets(es, all, mode, n - 1, k);
    } else {
      i := n - 1;
      FileCountsItself(all, i);
      OnlyOne(es, all[i].title);
    }
  }

  lemma OnlyOne(es: seq<IndexEntry>, t: Text)
    requires |LiveWith(es, t)| == 1
    ensures LiveWith(es, t) == [LiveWith(es, t)[0]] && LiveWith(es, t)[0] in es
    ensures LiveWith(es, t)[0].title == t
    ensures forall e :: e in es && e.state == LIVE && e.title == t ==> e == LiveWith(es, t)[0]
  {
    assert LiveWith(es, t)[0] in LiveWith(es, t);
  }

  lemma {:induction false} CountedTwice(rs: seq<CanonicalRecord>, i: nat, j: nat)
    requires i < j < |rs| && rs[i].title == rs[j].title
    ensures FileCount(rs, rs[i].title) >= 2
  {
    if j < |rs| - 1 {
      CountedTwice(rs[..|rs| - 1], i, j);
    } else {
      FileCountsItself(rs[..|rs| - 1], i);
    }
  }

  /** No two updates hit one item, when item ids are distinct. */
  lemma UpdatesAreDistinct(es: seq<IndexEntry>, all: seq<CanonicalRecord>, mode: Identity, j: nat, k: nat)
    requires forall a, b :: 0 <= a < b < |es| ==> es[a].itemId != es[b].itemId
    requires j < k < |UpdatesOf(es, all, mode, |all|)|
    ensures UpdatesOf(es, all, mode, |all|)[j].itemId != UpdatesOf(es, all, mode, |all|)[k].itemId
  {
    hide LiveWith, FileCount, UpdatesOf;
    var a := UpdateTargets(es, all, mode, |all|, j);
    var b := UpdateTargets(es, all, mode, |all|, k);
    OnlyOne(es, all[a].title);
    OnlyOne(es, all[b].title);
    if UpdatesOf(es, all, mode, |all|)[j].itemId == UpdatesOf(es, all, mode, |all|)[k].itemId {
      assert all[a].title == all[b].title;
      if a < b {
        CountedTwice(all, a, b);
      } else if b < a {
        CountedTwice(all, b, a);
      }
    }
  }

  /** Sources without identities of their own never update. */
  lemma {:induction false} AddOnlyNeverUpdates(es: seq<IndexEntry>, all: seq<CanonicalRecord>, n: nat)
    requires n <= |all|
    ensures UpdatesOf(es, all, AddOnly, n) == [] && AddsOf(es, all, AddOnly, n) == all[..n]
  {
    if n > 0 {
      AddOnlyNeverUpdates(es, all, n - 1);
      assert all[..n] == all[..n - 1] + [all[n - 1]];
    }
  }

  // ------------------------------------------------------------ the plan, plainly

  /** Record `i` has its title to itself in the file, and position `p` has it to itself among the live entries. */
  ghost predicate SoleMatch(es: seq<IndexEntry>, all: seq<CanonicalRecord>, mode: Identity, i: nat, p: nat) {
    && mode == Native && i < |all| && p < |es|
    && es[p].state == LIVE && es[p].title == all[i].title
    && (forall j :: 0 <= j < |all| && j != i ==> all[j].title != all[i].title)
    && forall q :: 0 <= q < |es| && q != p ==> es[q].state != LIVE || es[q].title != all[i].title
  }

  ghost predicate HasMatch(es: seq<IndexEntry>, all: seq<CanonicalRecord>, mode: Identity, i: nat) {
    exists p: nat :: SoleMatch(es, all, mode, i, p)
  }

  /** The records among the first `n` that have such a match. */
  ghost function Matched(es: seq<IndexEntry>, all: seq<CanonicalRecord>, mode: Identity, n: nat): set<nat> {
    set i: nat | i < n && HasMatch(es, all, mode, i)
  }

  ghost function Occurrences(all: seq<CanonicalRecord>, t: Text): set<nat> {
    set i: nat | i < |all| && all[i].title == t
  }

  ghost function LivePlaces(es: seq<IndexEntry>, t: Text): set<nat> {
    set p: nat | p < |es| && es[p].state == LIVE && es[p].title == t
  }

  lemma {:induction false} FileCountIs(all: seq<CanonicalRecord>, t: Text)
    ensures FileCount(all, t) == |Occurrences(all, t)|
  {
    if all != [] {
      var n := |all| - 1;
      FileCountIs(all[..n], t);
      assert Occurrences(all, t) == Occurrences(all[..n], t) + if all[n].title == t then {n} else {};
    } else {
      assert Occurrences(all, t) == {};
    }
  }

  lemma LivePlacesPush(es: seq<IndexEntry>, t: Text)
    requires es != []
    ensures var n: nat := |es| - 1;
            LivePlaces(es, t) == LivePlaces(es[..n], t) + if es[n].state == LIVE && es[n].title == t then {n} else {}
  {
  }

  lemma {:induction false} LiveCountIs(es: seq<IndexEntry>, t: Text)
    ensures |LiveWith(es, t)| == |LivePlaces(es, t)|
  {
    if es != [] {
      LiveCountIs(es[..|es| - 1], t);
      LivePlacesPush(es, t);
    } else {
      assert LivePlaces(es, t) == {};
    }
  }

  /** The one live entry with a title that only it has. */
  lemma {:induction false} LiveOne(es: seq<IndexEntry>, t: Text, p: nat)
    requires LivePlaces(es, t) == {p}
    ensures p < |es| && LiveWith(es, t) == [es[p]]
  {
    hide LivePlaces;
    PlaceIs(es, t, p);
    var n: nat := |es| - 1;
    LivePlacesPush(es, t);
    if p == n {
      assert LivePlaces(es[..n], t) == {} by { PlacesBefore(es[..n], t); }
      LiveCountIs(es[..n], t);
      assert LiveWith(es[..n], t) == [];
    } else {
      assert n !in LivePlaces(es, t);
      assert LivePlaces(es[..n], t) == {p};
      LiveOne(es[..n], t, p);
    }
  }

  lemma PlaceIs(es: seq<IndexEntry>, t: Text, p: nat)
    requires p in LivePlaces(es, t)
    ensures p < |es| && es[p].state == LIVE && es[p].title == t
  {
  }

  lemma PlacesBefore(es: seq<IndexEntry>, t: Text)
    ensures |es| !in LivePlaces(es, t)
  {
  }

  lemma Singleton(s: set<nat>, x: nat)
    requires x in s && |s| == 1
    ensures s == {x}
  {
    if s != {x} {
      var y :| y in s && y != x;
      SubsetSize({x, y}, s);
    }
  }

  lemma {:induction false} SubsetSize(a: set<nat>, b: set<nat>)
    requires a <= b
    ensures |a| <= |b|
  {
    if a != {} {
      var x :| x in a;
      SubsetSize(a - {x}, b - {x});
    }
  }

  lemma Pair(s: set<nat>, x: nat, y: nat)
    requires x in s && y in s && x != y
    ensures |s| >= 2
  {
    SubsetSize({x, y}, s);
  }

  /** The planner updates with a record exactly when it and one live entry match each other and nothing else. */
  lemma UpdatesIff(es: seq<IndexEntry>, all: seq<CanonicalRecord>, mode: Identity, i: nat)
    requires i < |all|
    ensures Updates(es, all, mode, all[i]) <==> HasMatch(es, all, mode, i)
    ensures forall p: nat :: SoleMatch(es, all, mode, i, p) ==>
              |LiveWith(es, all[i].title)| == 1
              && UpdateFor(es, all[i]) == PlannedUpdate(es[p].itemId, es[p].title, es[p].username, all[i].record)
  {
    hide LiveWith, FileCount;
    var t := all[i].title;
    var (occurrences, places) := (Occurrences(all, t), LivePlaces(es, t));
    FileCountIs(all, t);
    LiveCountIs(es, t);
    assert i in occurrences;
    forall p: nat | SoleMatch(es, all, mode, i, p)
      ensures occurrences == {i} && places == {p} && LiveWith(es, t) == [es[p]]
    {
      assert occurrences == {i} && places == {p};
      LiveOne(es, t, p);
    }
    if Updates(es, all, mode, all[i]) {
      Present(occurrences, i);
      Singleton(occurrences, i);
      var p :| p in places;
      Singleton(places, p);
      SoleMatchAt(es, all, mode, i, p);
    }
  }

  lemma Present(s: set<nat>, x: nat)
    requires x in s && |s| <= 1
    ensures |s| == 1
  {
  }

  lemma SoleMatchAt(es: seq<IndexEntry>, all: seq<CanonicalRecord>, mode: Identity, i: nat, p: nat)
    requires i < |all| && mode == Native
    requires Occurrences(all, all[i].title) == {i} && LivePlaces(es, all[i].title) == {p}
    ensures SoleMatch(es, all, mode, i, p)
  {
    assert p in LivePlaces(es, all[i].title);
    forall j | 0 <= j < |all| && j != i
      ensures all[j].title != all[i].title
    {
      assert j !in Occurrences(all, all[i].title);
    }
    forall q | 0 <= q < |es| && q != p
      ensures es[q].state != LIVE || es[q].title != all[i].title
    {
      assert q !in LivePlaces(es, all[i].title);
    }
  }

  /** Titles are reported exactly when two records have them, or more live entries than the import can tell apart. */
  lemma AmbiguousIff(es: seq<IndexEntry>, all: seq<CanonicalRecord>, mode: Identity, t: Text)
    ensures Ambiguous(es, all, mode, t) <==>
              || (exists i, j :: 0 <= i < j < |all| && all[i].title == t && all[j].title == t)
              || (mode == AddOnly && exists p :: 0 <= p < |es| && es[p].state == LIVE && es[p].title == t)
              || (mode == Native && exists p, q :: 0 <= p < q < |es| && es[p].state == LIVE && es[p].title == t
                                                  && es[q].state == LIVE && es[q].title == t)
  {
    hide LiveWith, FileCount;
    var (occurrences, places) := (Occurrences(all, t), LivePlaces(es, t));
    FileCountIs(all, t);
    LiveCountIs(es, t);
    TwoOf(occurrences);
    TwoOf(places);
    if i, j :| 0 <= i < j < |all| && all[i].title == t && all[j].title == t {
      Pair(occurrences, i, j);
    }
    if p :| 0 <= p < |es| && es[p].state == LIVE && es[p].title == t {
      assert p in places;
    }
    if p, q :| 0 <= p < q < |es| && es[p].state == LIVE && es[p].title == t && es[q].state == LIVE && es[q].title == t {
      Pair(places, p, q);
    }
  }

  lemma TwoOf(s: set<nat>)
    ensures |s| >= 2 ==> exists x, y :: x in s && y in s && x < y
  {
    if |s| >= 2 {
      var x :| x in s;
      assert |s - {x}| == |s| - 1;
      var y :| y in s - {x};
      if x < y {
      } else {
        assert y in s && x in s && y < x;
      }
    }
  }

  /** How often a reported title is said to collide. */
  lemma CollisionCountIs(es: seq<IndexEntry>, all: seq<CanonicalRecord>, mode: Identity, t: Text)
    requires Ambiguous(es, all, mode, t) && Occurrences(all, t) != {}
    ensures CollisionCount(es, all, mode, t)
         == if mode == AddOnly then |LivePlaces(es, t)| + |Occurrences(all, t)| - 1
            else if |Occurrences(all, t)| > 1 then |Occurrences(all, t)|
            else |LivePlaces(es, t)|
  {
    FileCountIs(all, t);
    LiveCountIs(es, t);
  }

  /** The updates of a plan are the sole matches and no others, and every other record is among the adds. */
  lemma PlanIsExact(es: seq<IndexEntry>, all: seq<CanonicalRecord>, mode: Identity)
    ensures forall i: nat, p: nat :: SoleMatch(es, all, mode, i, p) ==>
              PlannedUpdate(es[p].itemId, es[p].title, es[p].username, all[i].record) in UpdatesOf(es, all, mode, |all|)
    ensures forall i: nat :: i < |all| && !HasMatch(es, all, mode, i) ==>
              all[i] in AddsOf(es, all, mode, |all|)
    ensures |AddsOf(es, all, mode, |all|)| + |UpdatesOf(es, all, mode, |all|)| == |all|
    ensures |UpdatesOf(es, all, mode, |all|)| == |Matched(es, all, mode, |all|)|
  {
    hide Updates, LiveWith, UpdateFor, AddsOf, UpdatesOf, SoleMatch;
    MatchesWithin(es, all, mode);
    forall i: nat | i < |all|
      ensures forall p: nat :: SoleMatch(es, all, mode, i, p) ==>
                PlannedUpdate(es[p].itemId, es[p].title, es[p].username, all[i].record)
                in UpdatesOf(es, all, mode, |all|)
      ensures !HasMatch(es, all, mode, i) ==> all[i] in AddsOf(es, all, mode, |all|)
    {
      UpdatesIff(es, all, mode, i);
      PlanCoversFile(es, all, mode, |all|, i);
    }
    CountUpdates(es, all, mode, |all|);
  }

  lemma MatchesWithin(es: seq<IndexEntry>, all: seq<CanonicalRecord>, mode: Identity)
    ensures forall i: nat, p: nat :: SoleMatch(es, all, mode, i, p) ==> i < |all| && p < |es|
  {
  }

  lemma {:induction false} CountUpdates(es: seq<IndexEntry>, all: seq<CanonicalRecord>, mode: Identity, n: nat)
    requires n <= |all|
    ensures |AddsOf(es, all, mode, n)| + |UpdatesOf(es, all, mode, n)| == n
    ensures |UpdatesOf(es, all, mode, n)| == |Matched(es, all, mode, n)|
  {
    hide Updates, SoleMatch, UpdateFor;
    var matched := Matched(es, all, mode, n);
    if n > 0 {
      CountUpdates(es, all, mode, n - 1);
      UpdatesIff(es, all, mode, n - 1);
      assert matched == Matched(es, all, mode, n - 1) + if Updates(es, all, mode, all[n - 1]) then {n - 1} else {};
    } else {
      assert matched == {};
    }
  }
}
