/** The session list of the editor extension: one representative per session, split into panes and groups. */
module Sidebar {
  import opened Wrappers

  datatype Session = Session(
    key: string,
    id: string,
    lastObserved: real,
    checkCount: real,
    eventCount: real,
    lastEventIndex: real,
    lastSequenceNo: real,
    workspaceRoot: string,
    hasTitle: bool,
    storeRoot: string,
    storeKind: string,
    runtimeKind: string)

  /** Where a string stands in the locale's collation; strings that compare as equal stand in the same place. */
  type Collation = string -> real

  predicate EndsWith(text: string, tail: string) {
    |tail| <= |text| && text[|text| - |tail|..] == tail
  }

  predicate Contains(text: string, piece: string) {
    exists i | 0 <= i <= |text| :: piece <= text[i..]
  }

  function StoreRootRank(storeRoot: string): nat {
    if Contains(storeRoot, "/sessions/v2/") then 0
    else if EndsWith(storeRoot, "/sessions") then 1
    else if EndsWith(storeRoot, "/sessions-v2") then 2
    else 3
  }

  /** Newer, busier, further along; then with a workspace, with a title, from a preferred store, first in collation. */
  predicate IsBetter(a: Session, b: Session, collate: Collation) {
    if a.lastObserved != b.lastObserved then a.lastObserved > b.lastObserved
    else if a.checkCount != b.checkCount then a.checkCount > b.checkCount
    else if a.eventCount != b.eventCount then a.eventCount > b.eventCount
    else if a.lastEventIndex != b.lastEventIndex then a.lastEventIndex > b.lastEventIndex
    else if a.lastSequenceNo != b.lastSequenceNo then a.lastSequenceNo > b.lastSequenceNo
    else if (a.workspaceRoot != "") != (b.workspaceRoot != "") then a.workspaceRoot != ""
    else if a.hasTitle != b.hasTitle then a.hasTitle
    else if StoreRootRank(a.storeRoot) != StoreRootRank(b.storeRoot)
    then StoreRootRank(a.storeRoot) < StoreRootRank(b.storeRoot)
    else collate(a.storeRoot) < collate(b.storeRoot)
  }

  /** Neither is better: they agree in everything that is compared. */
  predicate Tied(a: Session, b: Session, collate: Collation) {
    !IsBetter(a, b, collate) && !IsBetter(b, a, collate)
  }

  /** Being better is a strict weak order: what is not worse than something not worse is not worse. */
  lemma BetterIsAnOrder(a: Session, b: Session, c: Session, collate: Collation)
    ensures !(IsBetter(a, b, collate) && IsBetter(b, a, collate))
    ensures IsBetter(a, c, collate) ==> IsBetter(a, b, collate) || IsBetter(b, c, collate)
  {
  }

  /** What the comparison looks at, most telling first; more is better. */
  function Merits(s: Session, collate: Collation): (m: seq<real>)
    ensures |m| == 9
  {
    [s.lastObserved, s.checkCount, s.eventCount, s.lastEventIndex, s.lastSequenceNo,
     if s.workspaceRoot == "" then 0.0 else 1.0, if s.hasTitle then 1.0 else 0.0,
     -(StoreRootRank(s.storeRoot) as real), -collate(s.storeRoot)]
  }

  /** There is more of one merit, and the more telling ones are the same. */
  predicate MoreAt(m: seq<real>, n: seq<real>, k: nat)
    requires |m| == |n| == 9
  {
    k < 9 && m[k] > n[k] && forall i | 0 <= i < k :: m[i] == n[i]
  }

  /** Being better is having more of the first merit in which the two differ. */
  lemma BetterIsLexicographic(a: Session, b: Session, collate: Collation)
    ensures IsBetter(a, b, collate) <==> exists k: nat :: MoreAt(Merits(a, collate), Merits(b, collate), k)
  {
    var m, n := Merits(a, collate), Merits(b, collate);
    var k := if m[0] != n[0] then 0 else if m[1] != n[1] then 1 else if m[2] != n[2] then 2
             else if m[3] != n[3] then 3 else if m[4] != n[4] then 4 else if m[5] != n[5] then 5
             else if m[6] != n[6] then 6 else if m[7] != n[7] then 7 else 8;
    assert forall i | 0 <= i < k :: m[i] == n[i];
    assert IsBetter(a, b, collate) <==> m[k] > n[k];
    if l: nat :| MoreAt(m, n, l) {
      assert l == k;
    }
    assert m[k] > n[k] ==> MoreAt(m, n, k);
  }

  predicate Occurs(piece: string, text: string, i: nat) {
    i + |piece| <= |text| && text[i..i + |piece|] == piece
  }

  lemma ContainsExactly(text: string, piece: string)
    ensures Contains(text, piece) <==> exists i: nat :: Occurs(piece, text, i)
  {
    forall i | 0 <= i <= |text| ensures piece <= text[i..] <==> Occurs(piece, text, i) {
      assert i + |piece| <= |text| ==> text[i..][..|piece|] == text[i..i + |piece|];
    }
  }

  /** Which stores are preferred, most first: the second version's, the first one's, the second one's root, others. */
  lemma StoreRootRankExactly(root: string)
    ensures var rank := StoreRootRank(root);
            if exists i: nat :: Occurs("/sessions/v2/", root, i) then rank == 0
            else if |root| >= 9 && root[|root| - 9..] == "/sessions" then rank == 1
            else if |root| >= 12 && root[|root| - 12..] == "/sessions-v2" then rank == 2
            else rank == 3
  {
    ContainsExactly(root, "/sessions/v2/");
  }

  // De-duplication.

  function Keys(sessions: seq<Session>): set<string> { set i | 0 <= i < |sessions| :: sessions[i].key }

  predicate DistinctKeys(sessions: seq<Session>) {
    forall i, j | 0 <= i < j < |sessions| :: sessions[i].key != sessions[j].key
  }

  /** The session has a representative, than which it is not better. */
  ghost predicate Represented(r: seq<Session>, s: Session, collate: Collation) {
    exists t | t in r :: t.key == s.key && !IsBetter(s, t, collate)
  }

  /** One session for each key there is, and none with its key is better. */
  ghost predicate Deduped(sessions: seq<Session>, r: seq<Session>, collate: Collation) {
    && DistinctKeys(r)
    && (forall s | s in r :: s in sessions)
    && (forall s {:trigger Represented(r, s, collate)} | s in sessions :: Represented(r, s, collate))
  }

  /** The representatives, in the order in which their keys first came up. */
  function Chosen(order: seq<string>, selected: map<string, Session>): seq<Session>
    requires forall i | 0 <= i < |order| :: order[i] in selected
  {
    seq(|order|, i requires 0 <= i < |order| => selected[order[i]])
  }

  /** Each key seen so far has been noted once, with the best of its sessions so far. */
  ghost predicate Selecting(order: seq<string>, selected: map<string, Session>, seen: seq<Session>,
                            collate: Collation) {
    && (forall i, j | 0 <= i < j < |order| :: order[i] != order[j])
    && (forall k :: k in order <==> k in selected)
    && (forall k | k in selected :: selected[k].key == k && selected[k] in seen)
    && (forall s | s in seen :: s.key in selected && !IsBetter(s, selected[s.key], collate))
  }

  lemma SelectOne(order: seq<string>, selected: map<string, Session>, seen: seq<Session>,
                  s: Session, collate: Collation)
    requires Selecting(order, selected, seen, collate)
    ensures s.key !in selected ==> Selecting(order + [s.key], selected[s.key := s], seen + [s], collate)
    ensures s.key in selected && IsBetter(s, selected[s.key], collate) ==>
              Selecting(order, selected[s.key := s], seen + [s], collate)
    ensures s.key in selected && !IsBetter(s, selected[s.key], collate) ==>
              Selecting(order, selected, seen + [s], collate)
  {
    if s.key in selected {
      forall t | t in seen && t.key == s.key && IsBetter(s, selected[s.key], collate) ensures !IsBetter(t, s, collate) {
        BetterIsAnOrder(t, s, selected[s.key], collate);
        BetterIsAnOrder(s, selected[s.key], t, collate);
        BetterIsAnOrder(t, selected[s.key], s, collate);
      }
    }
  }

  method DedupeSessions(sessions: seq<Session>, collate: Collation) returns (r: seq<Session>)
    ensures Deduped(sessions, r, collate)
  {
    var order: seq<string>, selected: map<string, Session> := [], map[];
    for i := 0 to |sessions|
      invariant Selecting(order, selected, sessions[..i], collate)
    {
      var session := sessions[i];
      SelectOne(order, selected, sessions[..i], session, collate);
      assert sessions[..i + 1] == sessions[..i] + [session];
      if session.key !in selected {
        order := order + [session.key];
        selected := selected[session.key := session];
      } else if IsBetter(session, selected[session.key], collate) {
        selected := selected[session.key := session];
      }
    }
    assert sessions[..|sessions|] == sessions;
    assert forall i | 0 <= i < |order| :: order[i] in order;
    r := Chosen(order, selected);
    ChosenIsDeduped(order, selected, sessions, collate);
  }

  lemma ChosenIsDeduped(order: seq<string>, selected: map<string, Session>, sessions: seq<Session>,
                        collate: Collation)
    requires Selecting(order, selected, sessions, collate)
    requires forall i | 0 <= i < |order| :: order[i] in selected
    ensures Deduped(sessions, Chosen(order, selected), collate)
  {
    var r := Chosen(order, selected);
    forall s | s in sessions ensures Represented(r, s, collate) {
      var i :| 0 <= i < |order| && order[i] == s.key;
      assert r[i] == selected[s.key];
    }
  }

  /** Whatever the order of the input, each key gets a representative of the same rank. */
  lemma OrderDoesNotMatter(a: seq<Session>, b: seq<Session>, r: seq<Session>, t: seq<Session>,
                           x: Session,
                           collate: Collation) returns (y: Session)
    requires (forall s :: s in a <==> s in b) && Deduped(a, r, collate) && Deduped(b, t, collate) && x in r
    ensures y in t && y.key == x.key && Tied(x, y, collate)
  {
    assert x in b && Represented(t, x, collate);
    y :| y in t && y.key == x.key && !IsBetter(x, y, collate);
    assert y in a && Represented(r, y, collate);
    var z :| z in r && z.key == y.key && !IsBetter(y, z, collate);
    OnePerKey(r, x, z);
  }

  lemma OnePerKey(r: seq<Session>, x: Session, z: Session)
    requires DistinctKeys(r) && x in r && z in r && x.key == z.key
    ensures x == z
  {
    var i :| 0 <= i < |r| && r[i] == x;
    var j :| 0 <= j < |r| && r[j] == z;
    assert i == j;
  }

  /** The representative of a key is one that was observed last, and of those one that was checked most. */
  lemma LatestRepresents(sessions: seq<Session>, r: seq<Session>, t: Session, s: Session, collate: Collation)
    requires Deduped(sessions, r, collate) && t in r && s in sessions && s.key == t.key
    ensures t.lastObserved >= s.lastObserved
    ensures t.lastObserved == s.lastObserved ==> t.checkCount >= s.checkCount
  {
    assert Represented(r, s, collate);
    var u :| u in r && u.key == s.key && !IsBetter(s, u, collate);
    OnePerKey(r, t, u);
  }

  /** No two different sessions of one key agree in everything that is compared. */
  ghost predicate NoTies(sessions: seq<Session>, collate: Collation) {
    forall a, b | a in sessions && b in sessions && a.key == b.key && Tied(a, b, collate) :: a == b
  }

  /** Without full ties the representatives are the very same sessions. */
  lemma SameRepresentatives(a: seq<Session>, b: seq<Session>, r: seq<Session>, t: seq<Session>,
                            collate: Collation)
    requires forall s :: s in a <==> s in b
    requires Deduped(a, r, collate) && Deduped(b, t, collate) && NoTies(a, collate)
    ensures forall s :: s in r <==> s in t
  {
    forall s | s in r ensures s in t {
      var y := OrderDoesNotMatter(a, b, r, t, s, collate);
    }
    forall s | s in t ensures s in r {
      var y := OrderDoesNotMatter(b, a, t, r, s, collate);
    }
  }

  // Sorting for display.

  /** Newest first, then by kind of store, then by id from the end of the alphabet. */
  predicate Before(a: Session, b: Session, collate: Collation) {
    if a.lastObserved != b.lastObserved then a.lastObserved > b.lastObserved
    else if a.storeKind != b.storeKind then collate(a.storeKind) < collate(b.storeKind)
    else collate(b.id) < collate(a.id)
  }

  /** A stable sort: an item goes behind all that it is not before. */
  function Insert<T>(sorted: seq<T>, item: T, before: (T, T) -> bool): (r: seq<T>)
    ensures |r| == |sorted| + 1
    ensures multiset(r) == multiset(sorted) + multiset{item}
  {
    if sorted == [] || !before(item, sorted[|sorted| - 1]) then sorted + [item]
    else
      var n := |sorted| - 1;
      assert sorted == sorted[..n] + [sorted[n]];
      Insert(sorted[..n], item, before) + [sorted[n]]
  }

  function SortBy<T>(items: seq<T>, before: (T, T) -> bool): (r: seq<T>)
    ensures multiset(r) == multiset(items)
  {
    if items == [] then []
    else
      var n := |items| - 1;
      assert items == items[..n] + [items[n]];
      Insert(SortBy(items[..n], before), items[n], before)
  }

  /** Among the items in question: never both ways, and what is not before something not before is not before. */
  ghost predicate WeakOrder<T(!new)>(among: T -> bool, before: (T, T) -> bool) {
    && (forall a, b | among(a) && among(b) && before(a, b) :: !before(b, a))
    && (forall a, b, c | among(a) && among(b) && among(c) && before(a, c) :: before(a, b) || before(b, c))
  }

  ghost predicate Ordered<T>(items: seq<T>, before: (T, T) -> bool) {
    forall i, j | 0 <= i < j < |items| :: !before(items[j], items[i])
  }

  ghost predicate All<T>(items: seq<T>, among: T -> bool) {
    forall i | 0 <= i < |items| :: among(items[i])
  }

  lemma {:induction false} InsertOrdered<T(!new)>(sorted: seq<T>, item: T, before: (T, T) -> bool, among: T -> bool)
    requires WeakOrder(among, before) && All(sorted, among) && among(item) && Ordered(sorted, before)
    ensures Ordered(Insert(sorted, item, before), before) && All(Insert(sorted, item, before), among)
    ensures sorted != [] && before(item, sorted[|sorted| - 1]) ==>
              Insert(sorted, item, before)[|sorted|] == sorted[|sorted| - 1]
    ensures forall x | among(x) && !before(x, item) && (forall i | 0 <= i < |sorted| :: !before(x, sorted[i])) ::
              forall i | 0 <= i <= |sorted| :: !before(x, Insert(sorted, item, before)[i])
  {
    var n := |sorted| - 1;
    if sorted != [] && before(item, sorted[n]) {
      InsertOrdered(sorted[..n], item, before, among);
    }
  }

  /** Where the comparison is an order, the result is in it. */
  lemma {:induction false} SortIsOrdered<T(!new)>(items: seq<T>, before: (T, T) -> bool, among: T -> bool)
    requires WeakOrder(among, before) && All(items, among)
    ensures Ordered(SortBy(items, before), before) && All(SortBy(items, before), among)
  {
    if items != [] {
      var n := |items| - 1;
      SortIsOrdered(items[..n], before, among);
      InsertOrdered(SortBy(items[..n], before), items[n], before, among);
    }
  }

  function Newest(collate: Collation): (Session, Session) -> bool {
    (a: Session, b: Session) => Before(a, b, collate)
  }

  function SortDesc(sessions: seq<Session>, collate: Collation): seq<Session> {
    SortBy(sessions, Newest(collate))
  }

  /** Different kinds of store stand in different places. */
  ghost predicate KindsApart(sessions: seq<Session>, collate: Collation) {
    forall s, t | s in sessions && t in sessions && s.storeKind != t.storeKind ::
      collate(s.storeKind) != collate(t.storeKind)
  }

  /** Where the collation tells the kinds of store apart, the result is in display order. */
  lemma SortDescIsOrdered(sessions: seq<Session>, collate: Collation)
    requires KindsApart(sessions, collate)
    ensures Ordered(SortDesc(sessions, collate), Newest(collate))
  {
    SortIsOrdered(sessions, Newest(collate), (s: Session) => s in sessions);
  }

  /** Newest first; of one time in the order of the kinds of store; of one kind from the last id to the first. */
  lemma NewestAreFirst(sessions: seq<Session>, collate: Collation, i: nat, j: nat)
    requires KindsApart(sessions, collate) && i < j < |SortDesc(sessions, collate)|
    ensures var a, b := SortDesc(sessions, collate)[i], SortDesc(sessions, collate)[j];
            && a.lastObserved >= b.lastObserved
            && (a.lastObserved == b.lastObserved ==> collate(a.storeKind) <= collate(b.storeKind))
            && (a.lastObserved == b.lastObserved && a.storeKind == b.storeKind ==> collate(a.id) >= collate(b.id))
  {
    SortDescIsOrdered(sessions, collate);
    SortKeepsMembers(sessions, collate);
    assert !Before(SortDesc(sessions, collate)[j], SortDesc(sessions, collate)[i], collate);
  }

  lemma SortKeepsMembers(sessions: seq<Session>, collate: Collation)
    ensures forall s :: s in SortDesc(sessions, collate) <==> s in sessions
  {
    forall s ensures s in SortDesc(sessions, collate) <==> s in sessions {
      assert s in multiset(SortDesc(sessions, collate)) <==> s in multiset(sessions);
    }
  }

  // Running sessions and panes.

  type Matcher<!T> = (T, Session) -> bool

  /** Position of the first session that is free and matches, if any. */
  function FindCandidate<T>(sessions: seq<Session>, taken: set<string>, record: T,
                            matches: Matcher<T>): (r: Option<nat>)
    ensures r.Some? ==> r.value < |sessions| && sessions[r.value].key !in taken && matches(record, sessions[r.value])
    ensures r.Some? ==> forall i | 0 <= i < r.value :: sessions[i].key in taken || !matches(record, sessions[i])
    ensures r.None? ==> forall i | 0 <= i < |sessions| :: sessions[i].key in taken || !matches(record, sessions[i])
  {
    if sessions == [] then None
    else if sessions[0].key !in taken && matches(record, sessions[0]) then Some(0)
    else
      var rest := FindCandidate(sessions[1..], taken, record, matches);
      assert forall i | 0 < i < |sessions| :: sessions[i] == sessions[1..][i - 1];
      if rest.Some? then Some(rest.value + 1) else None
  }

  /** The sessions that the records take, record by record. */
  function Taken<T>(sessions: seq<Session>, records: seq<T>, matches: Matcher<T>): seq<Session> {
    if records == [] then []
    else
      var n := |records| - 1;
      var selected := Taken(sessions, records[..n], matches);
      var found := FindCandidate(sessions, Keys(selected), records[n], matches);
      if found.Some? then selected + [sessions[found.value]] else selected
  }

  /** Some record before position `n` matches the session. */
  ghost predicate Called<T>(records: seq<T>, n: nat, s: Session, matches: Matcher<T>)
    requires n <= |records|
  {
    exists i | 0 <= i < n :: matches(records[i], s)
  }

  /** The record got a session, or the one it might have got was taken. */
  ghost predicate Served<T>(selected: seq<Session>, record: T, s: Session, matches: Matcher<T>) {
    s.key in Keys(selected) || exists t | t in selected :: matches(record, t)
  }

  lemma KeysGrow(selected: seq<Session>, s: Session)
    ensures Keys(selected + [s]) == Keys(selected) + {s.key}
  {
    assert (selected + [s])[|selected|] == s;
    forall i | 0 <= i < |selected| ensures selected[i].key in Keys(selected + [s]) {
      assert (selected + [s])[i] == selected[i];
    }
  }

  /** No session is taken twice, and only called ones are. */
  lemma {:induction false} TakenCalled<T>(sessions: seq<Session>, records: seq<T>, matches: Matcher<T>)
    ensures var r := Taken(sessions, records, matches);
            DistinctKeys(r) && forall s | s in r :: s in sessions && Called(records, |records|, s, matches)
  {
    if records != [] {
      var n := |records| - 1;
      TakenCalled(sessions, records[..n], matches);
      var selected := Taken(sessions, records[..n], matches);
      forall s | s in selected ensures Called(records, |records|, s, matches) {
        var i :| 0 <= i < n && matches(records[..n][i], s);
        assert matches(records[i], s);
      }
      assert forall k | 0 <= k < |selected| :: selected[k].key in Keys(selected);
    }
  }

  /** Later records take nothing away. */
  lemma StillServed<T>(selected: seq<Session>, more: Session, record: T, s: Session,
                       matches: Matcher<T>)
    requires Served(selected, record, s, matches)
    ensures Served(selected + [more], record, s, matches)
  {
    KeysGrow(selected, more);
    if s.key !in Keys(selected) {
      var t :| t in selected && matches(record, t);
      assert t in selected + [more];
    }
  }

  /** Every call is served. */
  lemma {:induction false} TakenServes<T>(sessions: seq<Session>, records: seq<T>, matches: Matcher<T>, i: nat,
                                          s: Session)
    requires i < |records| && s in sessions && matches(records[i], s)
    ensures Served(Taken(sessions, records, matches), records[i], s, matches)
    decreases |records|
  {
    var n := |records| - 1;
    var selected := Taken(sessions, records[..n], matches);
    var found := FindCandidate(sessions, Keys(selected), records[n], matches);
    if i < n {
      TakenServes(sessions, records[..n], matches, i, s);
      if found.Some? {
        StillServed(selected, sessions[found.value], records[i], s, matches);
      }
    } else if found.Some? {
      assert sessions[found.value] in selected + [sessions[found.value]];
    }
  }

  /** Each record takes the first matching session that no earlier record took; no session is taken twice. */
  method SelectRunning<T>(sessions: seq<Session>, records: seq<T>, matches: Matcher<T>, collate: Collation)
    returns (r: seq<Session>)
    ensures r == SortDesc(Taken(sessions, records, matches), collate)
    ensures DistinctKeys(r) && forall s | s in r :: s in sessions && Called(records, |records|, s, matches)
    ensures forall i, s | 0 <= i < |records| && s in sessions && matches(records[i], s) ::
              Served(r, records[i], s, matches)
  {
    var selected: seq<Session>, taken: set<string> := [], {};
    for i := 0 to |records|
      invariant taken == Keys(selected) && selected == Taken(sessions, records[..i], matches)
    {
      assert records[..i + 1][..i] == records[..i];
      var found := FindCandidate(sessions, taken, records[i], matches);
      if found.Some? {
        KeysGrow(selected, sessions[found.value]);
        selected := selected + [sessions[found.value]];
        taken := taken + {sessions[found.value].key};
      }
    }
    assert records[..|records|] == records;
    r := SortDesc(selected, collate);
    SortedServes(sessions, records, matches, collate);
  }

  lemma SortedServes<T>(sessions: seq<Session>, records: seq<T>, matches: Matcher<T>,
                        collate: Collation)
    ensures var r := SortDesc(Taken(sessions, records, matches), collate);
            && DistinctKeys(r)
            && (forall s | s in r :: s in sessions && Called(records, |records|, s, matches))
            && (forall i, s | 0 <= i < |records| && s in sessions && matches(records[i], s) ::
                  Served(r, records[i], s, matches))
  {
    var selected := Taken(sessions, records, matches);
    TakenCalled(sessions, records, matches);
    SortKeepsMembers(selected, collate);
    PermutedKeys(selected, SortDesc(selected, collate));
    SameKeys(selected, SortDesc(selected, collate));
    forall i, s | 0 <= i < |records| && s in sessions && matches(records[i], s)
      ensures Served(SortDesc(selected, collate), records[i], s, matches)
    {
      TakenServes(sessions, records, matches, i, s);
    }
  }

  lemma SameKeys(a: seq<Session>, b: seq<Session>)
    requires forall s :: s in a <==> s in b
    ensures Keys(a) == Keys(b)
  {
    forall k ensures k in Keys(a) <==> k in Keys(b) {
      if k in Keys(a) {
        var i :| 0 <= i < |a| && a[i].key == k;
        assert a[i] in b;
      }
      if k in Keys(b) {
        var i :| 0 <= i < |b| && b[i].key == k;
        assert b[i] in a;
      }
    }
  }

  /** Distinct keys stay distinct under any reordering. */
  lemma PermutedKeys(a: seq<Session>, b: seq<Session>)
    requires multiset(a) == multiset(b) && DistinctKeys(a)
    ensures DistinctKeys(b)
  {
    forall i, j | 0 <= i < j < |b| ensures b[i].key != b[j].key {
      if b[i].key == b[j].key {
        assert b[i] in multiset(a) && b[j] in multiset(a);
        var k :| 0 <= k < |a| && a[k] == b[i];
        var l :| 0 <= l < |a| && a[l] == b[j];
        assert k == l;
        Twice(b, i, j);
        Once(a, k);
      }
    }
  }

  lemma Twice(b: seq<Session>, i: nat, j: nat)
    requires i < j < |b| && b[i] == b[j]
    ensures multiset(b)[b[i]] >= 2
  {
    assert b == b[..i] + [b[i]] + b[i + 1..j] + [b[j]] + b[j + 1..];
  }

  lemma Once(a: seq<Session>, k: nat)
    requires k < |a| && DistinctKeys(a)
    ensures multiset(a)[a[k]] == 1
  {
    assert a == a[..k] + [a[k]] + a[k + 1..];
    assert a[k] !in a[..k] && a[k] !in a[k + 1..];
  }

  function Filter(sessions: seq<Session>, keep: Session -> bool): seq<Session> {
    if sessions == [] then []
    else
      var n := |sessions| - 1;
      if keep(sessions[n]) then Filter(sessions[..n], keep) + [sessions[n]] else Filter(sessions[..n], keep)
  }

  lemma {:induction false} FilterMembers(sessions: seq<Session>, keep: Session -> bool)
    ensures forall s :: s in Filter(sessions, keep) <==> s in sessions && keep(s)
  {
    if sessions != [] {
      var n := |sessions| - 1;
      FilterMembers(sessions[..n], keep);
      assert forall s :: s in sessions <==> s in sessions[..n] || s == sessions[n];
    }
  }

  /** Kept and dropped make up the whole, each as often as it was there. */
  lemma {:induction false} FilterSplits(sessions: seq<Session>, keep: Session -> bool, drop: Session -> bool)
    requires forall s :: drop(s) <==> !keep(s)
    ensures multiset(Filter(sessions, keep)) + multiset(Filter(sessions, drop)) == multiset(sessions)
  {
    if sessions != [] {
      var n := |sessions| - 1;
      FilterSplits(sessions[..n], keep, drop);
      assert sessions == sessions[..n] + [sessions[n]];
    }
  }

  datatype Panes = Panes(currentRunning: seq<Session>, otherRunning: seq<Session>, currentHistory: seq<Session>,
                         otherHistory: seq<Session>)

  function Split(sessions: seq<Session>, running: seq<Session>, isCurrent: string -> bool): Panes {
    var here, elsewhere := (s: Session) => isCurrent(s.workspaceRoot), (s: Session) => !isCurrent(s.workspaceRoot);
    var idle := Filter(sessions, (s: Session) => s.key !in Keys(running));
    Panes(Filter(running, here), Filter(running, elsewhere), Filter(idle, here), Filter(idle, elsewhere))
  }

  /** Running or not, and in an open workspace or not: which sessions are in which pane. */
  lemma PanesExactly(sessions: seq<Session>, running: seq<Session>, isCurrent: string -> bool, s: Session)
    ensures var p, busy := Split(sessions, running, isCurrent), exists t | t in running :: t.key == s.key;
            && (s in p.currentRunning <==> s in running && isCurrent(s.workspaceRoot))
            && (s in p.otherRunning <==> s in running && !isCurrent(s.workspaceRoot))
            && (s in p.currentHistory <==> s in sessions && !busy && isCurrent(s.workspaceRoot))
            && (s in p.otherHistory <==> s in sessions && !busy && !isCurrent(s.workspaceRoot))
  {
    var here, elsewhere := (s: Session) => isCurrent(s.workspaceRoot), (s: Session) => !isCurrent(s.workspaceRoot);
    var idle := (s: Session) => s.key !in Keys(running);
    FilterMembers(running, here);
    FilterMembers(running, elsewhere);
    FilterMembers(sessions, idle);
    FilterMembers(Filter(sessions, idle), here);
    FilterMembers(Filter(sessions, idle), elsewhere);
    if t :| t in running && t.key == s.key {
      var i :| 0 <= i < |running| && running[i] == t;
      assert running[i].key in Keys(running);
    }
  }

  lemma DistinctSubset(sessions: seq<Session>, part: seq<Session>)
    requires DistinctKeys(sessions) && DistinctKeys(part) && forall s | s in part :: s in sessions
    ensures multiset(part) == multiset(Filter(sessions, (s: Session) => s.key in Keys(part)))
  {
    var kept := Filter(sessions, (s: Session) => s.key in Keys(part));
    FilterKeepsDistinct(sessions, (s: Session) => s.key in Keys(part));
    FilterMembers(sessions, (s: Session) => s.key in Keys(part));
    forall s ensures multiset(part)[s] == multiset(kept)[s] {
      MemberOfPart(sessions, part, s);
      if s in part {
        var i :| 0 <= i < |part| && part[i] == s;
        Once(part, i);
        var j :| 0 <= j < |kept| && kept[j] == s;
        Once(kept, j);
      }
    }
  }

  lemma MemberOfPart(sessions: seq<Session>, part: seq<Session>, s: Session)
    requires DistinctKeys(sessions) && forall s | s in part :: s in sessions
    ensures s in part <==> s in sessions && s.key in Keys(part)
  {
    if s in sessions && s.key in Keys(part) {
      var i :| 0 <= i < |part| && part[i].key == s.key;
      assert part[i] in sessions;
      var j :| 0 <= j < |sessions| && sessions[j] == part[i];
      var k :| 0 <= k < |sessions| && sessions[k] == s;
    }
  }

  lemma {:induction false} FilterKeepsDistinct(sessions: seq<Session>, keep: Session -> bool)
    requires DistinctKeys(sessions)
    ensures DistinctKeys(Filter(sessions, keep))
  {
    if sessions != [] {
      var n := |sessions| - 1;
      FilterKeepsDistinct(sessions[..n], keep);
      FilterMembers(sessions[..n], keep);
      var front := Filter(sessions[..n], keep);
      forall i | 0 <= i < |front| ensures front[i].key != sessions[n].key {
        assert front[i] in sessions[..n];
      }
    }
  }

  /** The four panes show every session exactly once. */
  lemma PanesPartition(sessions: seq<Session>, running: seq<Session>, isCurrent: string -> bool)
    requires DistinctKeys(sessions) && DistinctKeys(running) && forall s | s in running :: s in sessions
    ensures var p := Split(sessions, running, isCurrent);
            multiset(p.currentRunning) + multiset(p.otherRunning) + multiset(p.currentHistory)
            + multiset(p.otherHistory) == multiset(sessions)
  {
    var here, elsewhere := (s: Session) => isCurrent(s.workspaceRoot), (s: Session) => !isCurrent(s.workspaceRoot);
    var busy, idle := (s: Session) => s.key in Keys(running), (s: Session) => s.key !in Keys(running);
    FilterSplits(running, here, elsewhere);
    FilterSplits(Filter(sessions, idle), here, elsewhere);
    DistinctSubset(sessions, running);
    FilterSplits(sessions, busy, idle);
  }

  // Groups.

  datatype Group = Group(key: string, latest: real, sessions: seq<Session>)

  function KeyedAs(key: Session -> string, k: string): Session -> bool { (s: Session) => key(s) == k }

  function Later(a: real, b: real): real { if b > a then b else a }

  function Latest(sessions: seq<Session>): real {
    if sessions == [] then 0.0 else Later(Latest(sessions[..|sessions| - 1]), sessions[|sessions| - 1].lastObserved)
  }

  /** The latest time that one of the sessions was observed, no earlier than 0. */
  lemma {:induction false} LatestExactly(sessions: seq<Session>)
    ensures Latest(sessions) >= 0.0 && forall s | s in sessions :: s.lastObserved <= Latest(sessions)
    ensures Latest(sessions) == 0.0 || exists s | s in sessions :: s.lastObserved == Latest(sessions)
  {
    if sessions != [] {
      var n := |sessions| - 1;
      LatestExactly(sessions[..n]);
      assert sessions[n] in sessions && forall s | s in sessions :: s in sessions[..n] || s == sessions[n];
    }
  }

  /** The group holds, in order, exactly the sessions with its key, and its time is the latest of theirs. */
  ghost predicate GroupOf(group: Group, sessions: seq<Session>, key: Session -> string) {
    && group.sessions == Filter(sessions, KeyedAs(key, group.key)) && group.sessions != []
    && group.latest == Latest(group.sessions)
  }

  ghost predicate GroupsOf(groups: seq<Group>, sessions: seq<Session>, key: Session -> string) {
    && (forall i, j | 0 <= i < j < |groups| :: groups[i].key != groups[j].key)
    && (forall i | 0 <= i < |groups| :: GroupOf(groups[i], sessions, key))
    && AllOf(groups) == multiset(sessions)
  }

  /** All sessions of all groups. */
  function AllOf(groups: seq<Group>): multiset<Session> {
    if groups == [] then multiset{} else AllOf(groups[..|groups| - 1]) + multiset(groups[|groups| - 1].sessions)
  }

  lemma {:induction false} AllOfUpdated(groups: seq<Group>, i: nat, group: Group, s: Session)
    requires i < |groups| && group.sessions == groups[i].sessions + [s]
    ensures AllOf(groups[i := group]) == AllOf(groups) + multiset{s}
  {
    var n := |groups| - 1;
    if i == n {
      assert groups[i := group][..n] == groups[..n];
    } else {
      assert groups[i := group][..n] == groups[..n][i := group];
      AllOfUpdated(groups[..n], i, group, s);
    }
  }

  /** Where a key's group is, if there is one. */
  predicate Located(at: map<string, nat>, groups: seq<Group>) {
    && (forall k | k in at :: at[k] < |groups| && groups[at[k]].key == k)
    && (forall i | 0 <= i < |groups| :: groups[i].key in at && at[groups[i].key] == i)
  }

  lemma OtherGroup(group: Group, seen: seq<Session>, s: Session, key: Session -> string)
    requires GroupOf(group, seen, key) && group.key != key(s)
    ensures GroupOf(group, seen + [s], key)
  {
    assert (seen + [s])[..|seen|] == seen;
  }

  lemma OwnGroup(group: Group, seen: seq<Session>, s: Session, key: Session -> string, latest: real)
    requires GroupOf(group, seen, key) && group.key == key(s) && latest == Later(group.latest, s.lastObserved)
    ensures GroupOf(Group(group.key, latest, group.sessions + [s]), seen + [s], key)
  {
    assert (seen + [s])[..|seen|] == seen;
    LatestOfMore(group.sessions, s);
  }

  lemma LatestOfMore(sessions: seq<Session>, s: Session)
    ensures Latest(sessions + [s]) == Later(Latest(sessions), s.lastObserved)
  {
    assert (sessions + [s])[..|sessions|] == sessions;
  }

  lemma FreshGroup(groups: seq<Group>, seen: seq<Session>, s: Session, key: Session -> string,
                   latest: real)
    requires AllOf(groups) == multiset(seen) && latest == Later(0.0, s.lastObserved)
    requires forall i | 0 <= i < |groups| :: GroupOf(groups[i], seen, key) && groups[i].key != key(s)
    ensures GroupOf(Group(key(s), latest, [s]), seen + [s], key)
  {
    assert (seen + [s])[..|seen|] == seen;
    forall t | t in seen ensures key(t) != key(s) {
      assert t in AllOf(groups);
      var i := GroupHolding(groups, t);
      FilterMembers(seen, KeyedAs(key, groups[i].key));
    }
    NothingKept(seen, KeyedAs(key, key(s)));
    LatestOfMore([], s);
    assert [] + [s] == [s];
  }

  lemma {:induction false} NothingKept(sessions: seq<Session>, keep: Session -> bool)
    requires forall s | s in sessions :: !keep(s)
    ensures Filter(sessions, keep) == []
  {
    if sessions != [] {
      assert forall s | s in sessions[..|sessions| - 1] :: s in sessions;
      assert sessions[|sessions| - 1] in sessions;
      NothingKept(sessions[..|sessions| - 1], keep);
    }
  }

  lemma {:induction false} GroupHolding(groups: seq<Group>, t: Session) returns (i: nat)
    requires t in AllOf(groups)
    ensures i < |groups| && t in groups[i].sessions
  {
    var n := |groups| - 1;
    if t in groups[n].sessions {
      i := n;
    } else {
      i := GroupHolding(groups[..n], t);
    }
  }

  lemma LocateNew(groups: seq<Group>, at: map<string, nat>, group: Group)
    requires Located(at, groups) && group.key !in at
    ensures Located(at[group.key := |groups|], groups + [group])
  {
    var more := groups + [group];
    forall i | 0 <= i < |more| ensures more[i].key in at[group.key := |groups|] && at[group.key := |groups|][more[i].key] == i {
      assert i < |groups| ==> more[i] == groups[i];
    }
  }

  lemma PushNew(groups: seq<Group>, at: map<string, nat>, seen: seq<Session>, s: Session,
                key: Session -> string,
                latest: real)
    requires Located(at, groups) && GroupsOf(groups, seen, key) && key(s) !in at && latest == Later(0.0, s.lastObserved)
    ensures GroupsOf(groups + [Group(key(s), latest, [s])], seen + [s], key)
  {
    var group := Group(key(s), latest, [s]);
    KeysLocated(groups, at, key(s));
    FreshGroup(groups, seen, s, key, latest);
    OthersGrow(groups, seen, s, key);
    AllOfPushed(groups, group);
    OneMoreGroup(groups, group, seen + [s], key);
  }

  lemma OneMoreGroup(groups: seq<Group>, group: Group, sessions: seq<Session>,
                     key: Session -> string)
    requires GroupOf(group, sessions, key) && AllOf(groups + [group]) == multiset(sessions)
    requires forall i, j | 0 <= i < j < |groups| :: groups[i].key != groups[j].key
    requires forall i | 0 <= i < |groups| :: GroupOf(groups[i], sessions, key) && groups[i].key != group.key
    ensures GroupsOf(groups + [group], sessions, key)
  {
  }

  lemma OneOtherGroup(groups: seq<Group>, i: nat, group: Group, sessions: seq<Session>,
                      key: Session -> string)
    requires i < |groups| && GroupOf(group, sessions, key) && AllOf(groups[i := group]) == multiset(sessions)
    requires group.key == groups[i].key
    requires forall j, k | 0 <= j < k < |groups| :: groups[j].key != groups[k].key
    requires forall j | 0 <= j < |groups| && j != i :: GroupOf(groups[j], sessions, key)
    ensures GroupsOf(groups[i := group], sessions, key)
  {
  }

  lemma TakeNext<T>(s: seq<T>, i: nat)
    requires i < |s|
    ensures s[..i + 1] == s[..i] + [s[i]]
  {
  }

  lemma KeysLocated(groups: seq<Group>, at: map<string, nat>, k: string)
    requires Located(at, groups) && k !in at
    ensures forall i | 0 <= i < |groups| :: groups[i].key != k
  {
  }

  lemma AllOfPushed(groups: seq<Group>, group: Group)
    ensures AllOf(groups + [group]) == AllOf(groups) + multiset(group.sessions)
  {
    assert (groups + [group])[..|groups|] == groups;
  }

  lemma PushOld(groups: seq<Group>, at: map<string, nat>, seen: seq<Session>, s: Session,
                key: Session -> string,
                latest: real)
    requires Located(at, groups) && GroupsOf(groups, seen, key) && key(s) in at
    requires latest == Later(groups[at[key(s)]].latest, s.lastObserved)
    ensures var i := at[key(s)];
            var more := groups[i := Group(key(s), latest, groups[i].sessions + [s])];
            Located(at, more) && GroupsOf(more, seen + [s], key)
  {
    var i := at[key(s)];
    var group := Group(key(s), latest, groups[i].sessions + [s]);
    OwnGroup(groups[i], seen, s, key, latest);
    OthersGrow(groups, seen, s, key);
    AllOfUpdated(groups, i, group, s);
    OneOtherGroup(groups, i, group, seen + [s], key);
    LocateOld(groups, at, i, group);
  }

  lemma LocateOld(groups: seq<Group>, at: map<string, nat>, i: nat, group: Group)
    requires Located(at, groups) && i < |groups| && group.key == groups[i].key
    ensures Located(at, groups[i := group])
  {
  }

  /** Puts a session behind the others of its key; a new key opens a new group at the end. */
  method PlaceSession(groups: seq<Group>, at: map<string, nat>, ghost seen: seq<Session>, session: Session,
                      key: Session -> string)
    returns (moreGroups: seq<Group>, moreAt: map<string, nat>)
    requires Located(at, groups) && GroupsOf(groups, seen, key)
    ensures Located(moreAt, moreGroups) && GroupsOf(moreGroups, seen + [session], key)
  {
    var k := key(session);
    if k !in at {
      var group := Group(k, Later(0.0, session.lastObserved), [session]);
      PushNew(groups, at, seen, session, key, group.latest);
      LocateNew(groups, at, group);
      moreGroups, moreAt := groups + [group], at[k := |groups|];
    } else {
      var group := groups[at[k]];
      var latest := Later(group.latest, session.lastObserved);
      PushOld(groups, at, seen, session, key, latest);
      moreGroups, moreAt := groups[at[k] := Group(k, latest, group.sessions + [session])], at;
    }
  }

  method GroupSessions(sessions: seq<Session>, key: Session -> string) returns (groups: seq<Group>)
    ensures GroupsOf(groups, sessions, key)
  {
    groups := [];
    var at: map<string, nat> := map[];
    for i := 0 to |sessions|
      invariant Located(at, groups) && GroupsOf(groups, sessions[..i], key)
    {
      groups, at := PlaceSession(groups, at, sessions[..i], sessions[i], key);
      TakeNext(sessions, i);
    }
    assert sessions[..|sessions|] == sessions;
  }

  lemma OthersGrow(groups: seq<Group>, seen: seq<Session>, s: Session, key: Session -> string)
    requires forall i | 0 <= i < |groups| :: GroupOf(groups[i], seen, key)
    ensures forall i | 0 <= i < |groups| && groups[i].key != key(s) :: GroupOf(groups[i], seen + [s], key)
  {
    forall i | 0 <= i < |groups| && groups[i].key != key(s) ensures GroupOf(groups[i], seen + [s], key) {
      OtherGroup(groups[i], seen, s, key);
    }
  }

  function WorkspaceKey(s: Session): string {
    if s.workspaceRoot == "" then UNKNOWN_WORKSPACE else s.workspaceRoot
  }

  const UNKNOWN_WORKSPACE := "__unknown_workspace__"

  function RuntimeKey(s: Session): string {
    if s.runtimeKind == "" then "unknown" else s.runtimeKind
  }

  // Groups as they are shown.

  /** How the groups of one kind are placed: by rank of the key, newest first, by label. */
  datatype Placing = Placing(rank: string -> int, labelOf: string -> string)

  function WorkspacePlacing(isCurrent: string -> bool, labelOf: string -> string): Placing {
    Placing((k: string) => if k != UNKNOWN_WORKSPACE && isCurrent(k) then 0 else 1, labelOf)
  }

  function RuntimePlacing(labelOf: string -> string): Placing {
    Placing((k: string) => if k == "codex" then 0 else if k == "claude" then 1 else 2, labelOf)
  }

  predicate GroupBefore(a: Group, b: Group, placing: Placing, collate: Collation) {
    if placing.rank(a.key) != placing.rank(b.key) then placing.rank(a.key) < placing.rank(b.key)
    else if a.latest != b.latest then a.latest > b.latest
    else collate(placing.labelOf(a.key)) < collate(placing.labelOf(b.key))
  }

  function Placed(placing: Placing, collate: Collation): (Group, Group) -> bool {
    (a: Group, b: Group) => GroupBefore(a, b, placing, collate)
  }

  function WithSorted(groups: seq<Group>, collate: Collation): seq<Group> {
    seq(|groups|, i requires 0 <= i < |groups| => groups[i].(sessions := SortDesc(groups[i].sessions, collate)))
  }

  /** A group of the sessions with its key, sorted, with the latest time of theirs. */
  ghost predicate ShownGroup(group: Group, sessions: seq<Session>, key: Session -> string, collate: Collation) {
    var own := Filter(sessions, KeyedAs(key, group.key));
    own != [] && group == Group(group.key, Latest(own), SortDesc(own, collate))
  }

  /**
   * Every session is shown exactly once, in a group with all others of its key, and the groups are in order. (So no
   * two groups have one key.)
   */
  ghost predicate Shown(groups: seq<Group>, sessions: seq<Session>, key: Session -> string, placing: Placing,
                        collate: Collation) {
    && (forall g | g in groups :: ShownGroup(g, sessions, key, collate))
    && AllOf(groups) == multiset(sessions)
    && Ordered(groups, Placed(placing, collate))
  }

  /** By runtime: a session is under its runtime's name, or `unknown`. */
  lemma RuntimeGroupExactly(groups: seq<Group>, sessions: seq<Session>, labelOf: string -> string, collate: Collation,
                            g: Group, s: Session)
    requires Shown(groups, sessions, RuntimeKey, RuntimePlacing(labelOf), collate) && g in groups && s in g.sessions
    ensures s in sessions && g.key == if s.runtimeKind == "" then "unknown" else s.runtimeKind
  {
    GroupedUnderKey(groups, sessions, RuntimeKey, RuntimePlacing(labelOf), collate, g, s);
  }

  /** Codex first, then Claude, then the others, newest first. */
  lemma RuntimesInOrder(groups: seq<Group>, sessions: seq<Session>, labelOf: string -> string, collate: Collation,
                        i: nat, j: nat)
    requires Shown(groups, sessions, RuntimeKey, RuntimePlacing(labelOf), collate) && i < j < |groups|
    ensures groups[j].key == "codex" ==> groups[i].key == "codex"
    ensures groups[j].key == "claude" ==> groups[i].key in {"codex", "claude"}
    ensures groups[i].key !in {"codex", "claude"} && groups[j].key !in {"codex", "claude"} ==>
              groups[i].latest >= groups[j].latest
  {
    assert !Placed(RuntimePlacing(labelOf), collate)(groups[j], groups[i]);
  }

  /** By workspace: a session is under its workspace's root, or a name for those without one. */
  lemma WorkspaceGroupExactly(groups: seq<Group>, sessions: seq<Session>, placing: Placing, collate: Collation,
                              g: Group, s: Session)
    requires Shown(groups, sessions, WorkspaceKey, placing, collate) && g in groups && s in g.sessions
    ensures s in sessions && g.key == if s.workspaceRoot == "" then "__unknown_workspace__" else s.workspaceRoot
  {
    GroupedUnderKey(groups, sessions, WorkspaceKey, placing, collate, g, s);
  }

  /** Open workspaces first, and newest first among the open ones and among the others. */
  lemma WorkspacesInOrder(groups: seq<Group>, sessions: seq<Session>, isCurrent: string -> bool,
                          labelOf: string -> string, collate: Collation, i: nat, j: nat)
    requires Shown(groups, sessions, WorkspaceKey, WorkspacePlacing(isCurrent, labelOf), collate) && i < j < |groups|
    ensures var a, b := groups[i].key, groups[j].key;
            var open := a != "__unknown_workspace__" && isCurrent(a);
            var behind := b != "__unknown_workspace__" && isCurrent(b);
            (behind ==> open) && (behind == open ==> groups[i].latest >= groups[j].latest)
  {
    assert !Placed(WorkspacePlacing(isCurrent, labelOf), collate)(groups[j], groups[i]);
  }

  lemma GroupedUnderKey(groups: seq<Group>, sessions: seq<Session>, key: Session -> string, placing: Placing,
                        collate: Collation, g: Group, s: Session)
    requires Shown(groups, sessions, key, placing, collate) && g in groups && s in g.sessions
    ensures s in sessions && key(s) == g.key
  {
    assert ShownGroup(g, sessions, key, collate);
    SortKeepsMembers(Filter(sessions, KeyedAs(key, g.key)), collate);
    FilterMembers(sessions, KeyedAs(key, g.key));
  }

  lemma SortedFront(groups: seq<Group>, collate: Collation)
    requires groups != []
    ensures var n := |groups| - 1;
            && WithSorted(groups, collate)[..n] == WithSorted(groups[..n], collate)
            && multiset(WithSorted(groups, collate)[n].sessions) == multiset(groups[n].sessions)
  {
  }

  lemma {:induction false} AllOfSorted(groups: seq<Group>, collate: Collation)
    ensures AllOf(WithSorted(groups, collate)) == AllOf(groups)
  {
    if groups != [] {
      SortedFront(groups, collate);
      AllOfSorted(groups[..|groups| - 1], collate);
    }
  }

  lemma {:induction false} AllOfInserted(sorted: seq<Group>, group: Group, before: (Group, Group) -> bool)
    ensures AllOf(Insert(sorted, group, before)) == AllOf(sorted) + multiset(group.sessions)
  {
    var n := |sorted| - 1;
    if sorted != [] && before(group, sorted[n]) {
      AllOfInserted(sorted[..n], group, before);
      AllOfPushed(Insert(sorted[..n], group, before), sorted[n]);
    } else {
      AllOfPushed(sorted, group);
    }
  }

  lemma {:induction false} AllOfPlaced(groups: seq<Group>, before: (Group, Group) -> bool)
    ensures AllOf(SortBy(groups, before)) == AllOf(groups)
  {
    if groups != [] {
      var n := |groups| - 1;
      AllOfPlaced(groups[..n], before);
      AllOfInserted(SortBy(groups[..n], before), groups[n], before);
    }
  }

  /** Sorting inside the groups and then the groups themselves loses nothing. */
  lemma PlacedIsShown(groups: seq<Group>, sessions: seq<Session>, key: Session -> string,
                      placing: Placing, collate: Collation)
    requires GroupsOf(groups, sessions, key)
    ensures Shown(SortBy(WithSorted(groups, collate), Placed(placing, collate)), sessions, key, placing, collate)
  {
    var sorted := WithSorted(groups, collate);
    AllOfSorted(groups, collate);
    AllOfPlaced(sorted, Placed(placing, collate));
    PlacedIsOrdered(sorted, placing, collate);
    forall g | g in SortBy(sorted, Placed(placing, collate)) ensures ShownGroup(g, sessions, key, collate) {
      assert g in multiset(sorted);
      EachIsShown(groups, sessions, key, collate, g);
    }
  }

  lemma PlacedIsOrdered(groups: seq<Group>, placing: Placing, collate: Collation)
    ensures Ordered(SortBy(groups, Placed(placing, collate)), Placed(placing, collate))
  {
    SortIsOrdered(groups, Placed(placing, collate), (g: Group) => true);
  }

  lemma EachIsShown(groups: seq<Group>, sessions: seq<Session>, key: Session -> string,
                    collate: Collation, g: Group)
    requires GroupsOf(groups, sessions, key) && g in WithSorted(groups, collate)
    ensures ShownGroup(g, sessions, key, collate)
  {
    var i :| 0 <= i < |groups| && WithSorted(groups, collate)[i] == g;
    assert GroupOf(groups[i], sessions, key);
  }

  /** By runtime or by workspace. */
  method ShowGroups(sessions: seq<Session>, key: Session -> string, placing: Placing, collate: Collation)
    returns (shown: seq<Group>)
    ensures Shown(shown, sessions, key, placing, collate)
  {
    var groups := GroupSessions(sessions, key);
    PlacedIsShown(groups, sessions, key, placing, collate);
    shown := SortBy(WithSorted(groups, collate), Placed(placing, collate));
  }

  const OTHER_HISTORY_WORKSPACE_LIMIT: nat := 5

  datatype Model = Model(currentRunning: seq<Group>, otherRunning: seq<Group>, currentHistory: seq<Group>,
                         otherHistory: seq<Group>, hiddenWorkspaces: nat, counts: PaneCounts, total: nat)

  datatype PaneCounts = PaneCounts(currentRunning: nat, otherRunning: nat, currentHistory: nat, otherHistory: nat)

  function Counts(panes: Panes): PaneCounts {
    PaneCounts(|panes.currentRunning|, |panes.otherRunning|, |panes.currentHistory|, |panes.otherHistory|)
  }

  /** Labels of the two kinds of groups, and which workspaces are open. */
  datatype Display = Display(workspaceLabel: string -> string, runtimeLabel: string -> string,
                             isCurrent: string -> bool, collate: Collation)

  /** The model for the panes: each pane is grouped, and of the other workspaces' history only a prefix is visible. */
  ghost predicate ModelOf(model: Model, panes: Panes, otherHistory: seq<Group>, display: Display) {
    var runtimes := RuntimePlacing(display.runtimeLabel);
    && Shown(model.currentRunning, panes.currentRunning, RuntimeKey, runtimes, display.collate)
    && Shown(model.otherRunning, panes.otherRunning, RuntimeKey, runtimes, display.collate)
    && Shown(model.currentHistory, panes.currentHistory, RuntimeKey, runtimes, display.collate)
    && Shown(otherHistory, panes.otherHistory, WorkspaceKey,
             WorkspacePlacing(display.isCurrent, display.workspaceLabel), display.collate)
    && model.otherHistory <= otherHistory && |model.otherHistory| <= OTHER_HISTORY_WORKSPACE_LIMIT
    && |model.otherHistory| + model.hiddenWorkspaces == |otherHistory|
    && (model.hiddenWorkspaces > 0 ==> |model.otherHistory| == OTHER_HISTORY_WORKSPACE_LIMIT)
    && model.counts == Counts(panes)
  }

  /**
   * The sidebar shows each of the sessions it is given exactly once, but for those of the workspaces that it says
   * are hidden; and its counts add up.
   */
  method BuildSidebarModel<T>(sessions: seq<Session>, liveRecords: seq<T>, matches: Matcher<T>, display: Display)
    returns (model: Model, otherHistory: seq<Group>)
    requires DistinctKeys(sessions)
    ensures var running := SortDesc(Taken(sessions, liveRecords, matches), display.collate);
            ModelOf(model, Split(sessions, running, display.isCurrent), otherHistory, display)
    ensures AllOf(model.currentRunning) + AllOf(model.otherRunning) + AllOf(model.currentHistory) + AllOf(otherHistory)
         == multiset(sessions)
    ensures var n := model.counts;
            n.currentRunning + n.otherRunning + n.currentHistory + n.otherHistory == model.total == |sessions|
  {
    var running := SelectRunning(sessions, liveRecords, matches, display.collate);
    var panes := Split(sessions, running, display.isCurrent);
    PanesPartition(sessions, running, display.isCurrent);
    CountsAddUp(panes, sessions);
    var runtimes := RuntimePlacing(display.runtimeLabel);
    var currentRunning := ShowGroups(panes.currentRunning, RuntimeKey, runtimes, display.collate);
    var otherRunning := ShowGroups(panes.otherRunning, RuntimeKey, runtimes, display.collate);
    var currentHistory := ShowGroups(panes.currentHistory, RuntimeKey, runtimes, display.collate);
    var others := ShowGroups(panes.otherHistory, WorkspaceKey,
                             WorkspacePlacing(display.isCurrent, display.workspaceLabel), display.collate);
    var limit := OTHER_HISTORY_WORKSPACE_LIMIT;
    var visible := if |others| <= limit then others else others[..limit];
    otherHistory := others;
    model := Model(currentRunning, otherRunning, currentHistory, visible, |others| - |visible|,
                   Counts(panes),
                   |sessions|);
  }

  /** The counts are of what is shown in each pane, and of the other workspaces no more than five are visible. */
  lemma CountsExactly(model: Model, panes: Panes, otherHistory: seq<Group>, display: Display)
    requires ModelOf(model, panes, otherHistory, display)
    ensures model.counts.currentRunning == |AllOf(model.currentRunning)|
    ensures model.counts.otherRunning == |AllOf(model.otherRunning)|
    ensures model.counts.currentHistory == |AllOf(model.currentHistory)|
    ensures model.counts.otherHistory == |AllOf(otherHistory)|
    ensures |model.otherHistory| == if |otherHistory| < 5 then |otherHistory| else 5
  {
    assert |multiset(panes.currentRunning)| == |panes.currentRunning|;
    assert |multiset(panes.otherRunning)| == |panes.otherRunning|;
    assert |multiset(panes.currentHistory)| == |panes.currentHistory|;
    assert |multiset(panes.otherHistory)| == |panes.otherHistory|;
  }

  lemma CountsAddUp(p: Panes, sessions: seq<Session>)
    requires multiset(p.currentRunning) + multiset(p.otherRunning) + multiset(p.currentHistory)
             + multiset(p.otherHistory) == multiset(sessions)
    ensures |p.currentRunning| + |p.otherRunning| + |p.currentHistory| + |p.otherHistory| == |sessions|
  {
    assert |multiset(sessions)| == |sessions|;
  }

  /** From what the stores list to what the sidebar shows: one representative of each session, exactly once. */
  method ListAndShow<T>(listed: seq<Session>, liveRecords: seq<T>, matches: Matcher<T>, display: Display)
    returns (sessions: seq<Session>, model: Model, otherHistory: seq<Group>)
    ensures Deduped(listed, sessions, display.collate)
    ensures AllOf(model.currentRunning) + AllOf(model.otherRunning) + AllOf(model.currentHistory) + AllOf(otherHistory)
         == multiset(sessions)
    ensures var running := SortDesc(Taken(sessions, liveRecords, matches), display.collate);
            ModelOf(model, Split(sessions, running, display.isCurrent), otherHistory, display)
  {
    var best := DedupeSessions(listed, display.collate);
    sessions := SortDesc(best, display.collate);
    SortedIsDeduped(listed, best, display.collate);
    model, otherHistory := BuildSidebarModel(sessions, liveRecords, matches, display);
  }

  lemma SortedIsDeduped(listed: seq<Session>, best: seq<Session>, collate: Collation)
    requires Deduped(listed, best, collate)
    ensures Deduped(listed, SortDesc(best, collate), collate)
  {
    SortKeepsMembers(best, collate);
    PermutedKeys(best, SortDesc(best, collate));
    forall s | s in listed ensures Represented(SortDesc(best, collate), s, collate) {
      assert Represented(best, s, collate);
    }
  }
}
