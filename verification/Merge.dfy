/** The merge of size-tiered compaction: a two-pointer merge of two sorted tables under a running
    map of deletion times, folded over the tables of a bucket.
 */
module Merge {
  import opened Wrappers
  import opened Bytes
  import opened Entries

  /** Whether entries expire, and after how long they and their deletions do. */
  datatype Config = Config(useTtl: bool, entryTtl: nat, tombstoneTtl: nat)

  type Deletions = map<Key, nat>

  function Recorded(m: Deletions, k: Key): (t: Option<nat>)
  {
    if k in m then Some(m[k]) else None
  }

  /** `a` is not earlier than what is recorded in `b`. */
  predicate NotBefore(a: Option<nat>, b: Option<nat>)
  {
    b.Some? ==> a.Some? && a.value >= b.value
  }

  predicate Expired(e: Entry, ttl: nat, now: nat)
  {
    now > e.time + ttl
  }

  predicate Passes(t: Option<nat>, e: Entry)
  {
    t.Some? ==> e.time > t.value
  }

  /** Whether `tombstone_check` lets an entry into the merged table, given the recorded deletion
      time of its key. */
  predicate Keeps(cfg: Config, now: nat, t: Option<nat>, e: Entry)
  {
    Passes(t, e) &&
    if e.tomb then !Expired(e, cfg.tombstoneTtl, now)
    else cfg.useTtl ==> !Expired(e, cfg.entryTtl, now)
  }

  /** The recorded deletion time of the key afterwards. */
  function After(t: Option<nat>, e: Entry): (t': Option<nat>)
  {
    if e.tomb && Passes(t, e) then Some(e.time) else t
  }

  function Note(m: Deletions, e: Entry): (m': Deletions)
  {
    if e.tomb && Passes(Recorded(m, e.key), e) then m[e.key := e.time] else m
  }

  /** Which of two versions of a key a merge looks at. */
  function Choose(x: Option<Entry>, y: Option<Entry>): (r: Option<Entry>)
  {
    if x.Some? && (y.None? || x.value.time > y.value.time) then x else y
  }

  // ---------------------------------------------------------------------
  // Merging two tables

  datatype Pick = Pick(entry: Entry, left: seq<Entry>, right: seq<Entry>)

  /** The comparison at the two pointers. */
  function Next(a: seq<Entry>, b: seq<Entry>): (p: Pick)
    requires a != [] || b != []
    ensures |p.left| + |p.right| < |a| + |b|
  {
    if b == [] || (a != [] && Less(a[0].key, b[0].key)) then Pick(a[0], a[1..], b)
    else if a != [] && a[0].key == b[0].key then
      Pick(if a[0].time > b[0].time then a[0] else b[0], a[1..], b[1..])
    else Pick(b[0], a, b[1..])
  }

  function MergeTwo(cfg: Config, now: nat, a: seq<Entry>, b: seq<Entry>, m: Deletions): (r: (seq<Entry>, Deletions))
    decreases |a| + |b|
  {
    if a == [] && b == [] then ([], m) else
    var p := Next(a, b);
    var (rest, m') := MergeTwo(cfg, now, p.left, p.right, Note(m, p.entry));
    ((if Keeps(cfg, now, Recorded(m, p.entry.key), p.entry) then [p.entry] else []) + rest, m')
  }

  lemma AboveFindsNothing(es: seq<Entry>, k: Key)
    requires AllAbove(es, k)
    ensures Find(es, k) == None
  {
    forall e | e in es
      ensures e.key != k
    {
      LessTrichotomy(k, e.key);
    }
  }

  lemma SortedAbove(es: seq<Entry>)
    requires Sorted(es) && es != []
    ensures AllAbove(es[1..], es[0].key) && Sorted(es[1..])
  {
  }

  lemma AboveLower(es: seq<Entry>, low: Key, k: Key)
    requires Less(low, k) && AllAbove(es, k)
    ensures AllAbove(es, low)
  {
    forall i | 0 <= i < |es|
      ensures Less(low, es[i].key)
    {
      LessTransitive(low, k, es[i].key);
    }
  }

  /** The entry looked at has the least key of both tables, and the rest is above it. */
  lemma NextIsLeast(a: seq<Entry>, b: seq<Entry>)
    requires Sorted(a) && Sorted(b) && (a != [] || b != [])
    ensures var p := Next(a, b);
            AllAbove(p.left, p.entry.key) && AllAbove(p.right, p.entry.key) &&
            Sorted(p.left) && Sorted(p.right) &&
            Some(p.entry) == Choose(Find(a, p.entry.key), Find(b, p.entry.key)) &&
            (forall k | k != p.entry.key :: Find(a, k) == Find(p.left, k) && Find(b, k) == Find(p.right, k))
  {
    hide Less, Find;
    if a != [] {
      SortedAbove(a);
      FindHead(a);
    }
    if b != [] {
      SortedAbove(b);
      FindHead(b);
    }
    if a != [] && b != [] {
      LessTrichotomy(a[0].key, b[0].key);
      if Less(a[0].key, b[0].key) {
        AboveLower(b[1..], a[0].key, b[0].key);
        AboveFindsNothing(b, a[0].key);
      } else if Less(b[0].key, a[0].key) {
        AboveLower(a[1..], b[0].key, a[0].key);
        AboveFindsNothing(a, b[0].key);
      }
    } else if a == [] {
      FindNone(b[0].key);
    } else {
      FindNone(a[0].key);
    }
  }

  lemma FindNone(k: Key)
    ensures Find([], k) == None
  {
  }

  lemma FindHead(es: seq<Entry>)
    requires es != []
    ensures Find(es, es[0].key) == Some(es[0])
    ensures forall k | k != es[0].key :: Find(es, k) == Find(es[1..], k)
  {
  }

  /** The merged table is sorted and lies above everything both inputs lie above. */
  lemma {:induction false} MergeSorted(cfg: Config, now: nat, a: seq<Entry>, b: seq<Entry>, m: Deletions)
    requires Sorted(a) && Sorted(b)
    ensures Sorted(MergeTwo(cfg, now, a, b, m).0)
    ensures forall low | AllAbove(a, low) && AllAbove(b, low) :: AllAbove(MergeTwo(cfg, now, a, b, m).0, low)
    decreases |a| + |b|
  {
    hide Less, Keeps, Note, Find;
    if a != [] || b != [] {
      var p := Next(a, b);
      NextIsLeast(a, b);
      MergeSorted(cfg, now, p.left, p.right, Note(m, p.entry));
      var rest := MergeTwo(cfg, now, p.left, p.right, Note(m, p.entry)).0;
      assert AllAbove(rest, p.entry.key);
      forall low | AllAbove(a, low) && AllAbove(b, low)
        ensures AllAbove([p.entry] + rest, low) && AllAbove(rest, low)
      {
        assert Less(low, p.entry.key);
        AboveLower(rest, low, p.entry.key);
      }
    }
  }

  /** What one merge does to one key: the version looked at is the newer of the two, it enters the
      result exactly when the check lets it, and the deletion record of the key moves accordingly. */
  lemma {:induction false} MergeAtKey(cfg: Config, now: nat, a: seq<Entry>, b: seq<Entry>, m: Deletions, k: Key)
    requires Sorted(a) && Sorted(b)
    ensures var (out, m') := MergeTwo(cfg, now, a, b, m);
            var c := Choose(Find(a, k), Find(b, k));
            Find(out, k) == (if c.Some? && Keeps(cfg, now, Recorded(m, k), c.value) then c else None) &&
            Recorded(m', k) == (if c.Some? then After(Recorded(m, k), c.value) else Recorded(m, k))
    decreases |a| + |b|
  {
    hide Less, Keeps, After, Note, Recorded, Next, Find;
    if a == [] && b == [] {
      FindNone(k);
    } else {
      var p := Next(a, b);
      NextIsLeast(a, b);
      var e := p.entry;
      var m1 := Note(m, e);
      NoteRecorded(m, e, k);
      MergeAtKey(cfg, now, p.left, p.right, m1, k);
      var (rest, m') := MergeTwo(cfg, now, p.left, p.right, m1);
      FindCons(e, rest, k);
      assert [] + rest == rest;
      if k == e.key {
        AboveFindsNothing(p.left, k);
        AboveFindsNothing(p.right, k);
      }
    }
  }

  /** Of two versions of one time the one of the later table is taken: it stays if and only if no deletion as late
      is on record and it has not expired. */
  lemma SimultaneousLaterWins(cfg: Config, now: nat, a: seq<Entry>, b: seq<Entry>, m: Deletions, k: Key)
    requires Sorted(a) && Sorted(b) && Find(a, k).Some? && Find(b, k).Some?
    requires Find(a, k).value.time == Find(b, k).value.time
    ensures var r, y := Find(MergeTwo(cfg, now, a, b, m).0, k), Find(b, k).value;
            if (k in m && y.time <= m[k]) || (y.tomb && now > y.time + cfg.tombstoneTtl) ||
               (!y.tomb && cfg.useTtl && now > y.time + cfg.entryTtl) then r == None else r == Some(y)
  {
    hide MergeTwo, Find;
    MergeAtKey(cfg, now, a, b, m, k);
  }

  lemma NoteRecorded(m: Deletions, e: Entry, k: Key)
    ensures Recorded(Note(m, e), k) == if k == e.key then After(Recorded(m, k), e) else Recorded(m, k)
  {
  }

  lemma FindCons(e: Entry, es: seq<Entry>, k: Key)
    ensures Find([e] + es, k) == if e.key == k then Some(e) else Find(es, k)
  {
    assert ([e] + es)[1..] == es;
  }

  // ---------------------------------------------------------------------
  // Folding over a bucket

  function MergeAll(cfg: Config, nows: seq<nat>, acc: seq<Entry>, tables: seq<seq<Entry>>, m: Deletions):
      (r: (seq<Entry>, Deletions))
    requires |nows| == |tables|
    decreases |tables|
  {
    if tables == [] then (acc, m) else
    var n := |tables| - 1;
    var (out, m') := MergeAll(cfg, nows[..n], acc, tables[..n], m);
    MergeTwo(cfg, nows[n], out, tables[n], m')
  }

  predicate AllSorted(tables: seq<seq<Entry>>)
  {
    forall i | 0 <= i < |tables| :: Sorted(tables[i])
  }

  lemma {:induction false} MergeAllSorted(cfg: Config, nows: seq<nat>, acc: seq<Entry>, tables: seq<seq<Entry>>,
                                          m: Deletions)
    requires |nows| == |tables| && Sorted(acc) && AllSorted(tables)
    ensures Sorted(MergeAll(cfg, nows, acc, tables, m).0)
    decreases |tables|
  {
    if tables != [] {
      var n := |tables| - 1;
      MergeAllSorted(cfg, nows[..n], acc, tables[..n], m);
      var (out, m') := MergeAll(cfg, nows[..n], acc, tables[..n], m);
      MergeSorted(cfg, nows[n], out, tables[n], m');
    }
  }

  /** The newest version of a key over several tables: the rule of `search_key_in_sstables`. */
  function Newest(tables: seq<seq<Entry>>, k: Key): (r: Option<Entry>)
    ensures r.Some? ==> r.value.key == k && r.value.time > 0
  {
    if tables == [] then None else
    var n := |tables| - 1;
    var best := Newest(tables[..n], k);
    var e := Find(tables[n], k);
    if e.Some? && e.value.time > (if best.Some? then best.value.time else 0) then e else best
  }

  /** `e` is the version of its key in some table. */
  predicate Version(tables: seq<seq<Entry>>, e: Entry)
  {
    exists i :: 0 <= i < |tables| && Find(tables[i], e.key) == Some(e)
  }

  /** Every write has a positive time, and a time belongs to one write of the key: two tables that
      hold a version of the same time hold the same version. */
  predicate Consistent(tables: seq<seq<Entry>>, k: Key)
  {
    forall i, j | 0 <= i < |tables| && 0 <= j < |tables| ::
      var x, y := Find(tables[i], k), Find(tables[j], k);
      (x.Some? ==> x.value.time > 0) &&
      (x.Some? && y.Some? && x.value.time == y.value.time ==> x == y)
  }

  /** The newest version is a version, and no version has a later time. */
  lemma {:induction false} NewestIsLatest(tables: seq<seq<Entry>>, k: Key)
    ensures var r := Newest(tables, k);
            (r.Some? ==> Version(tables, r.value)) &&
            (forall i | 0 <= i < |tables| ::
               var x := Find(tables[i], k);
               x.Some? && x.value.time > 0 ==> r.Some? && x.value.time <= r.value.time)
  {
    if tables != [] {
      var n := |tables| - 1;
      NewestIsLatest(tables[..n], k);
      var best := Newest(tables[..n], k);
      if Newest(tables, k) == best && best.Some? {
        var i :| 0 <= i < n && Find(tables[..n][i], k) == Some(best.value);
        assert tables[i] == tables[..n][i];
      }
      forall i | 0 <= i < n
        ensures tables[i] == tables[..n][i]
      {
      }
    }
  }

  /** The two facts above determine it. */
  lemma NewestUnique(tables: seq<seq<Entry>>, k: Key, e: Entry)
    requires Consistent(tables, k) && e.key == k && Version(tables, e)
    requires forall i | 0 <= i < |tables| ::
               var x := Find(tables[i], k); x.Some? ==> x.value.time <= e.time
    ensures Newest(tables, k) == Some(e)
  {
    NewestIsLatest(tables, k);
    var i :| 0 <= i < |tables| && Find(tables[i], k) == Some(e);
    var r := Newest(tables, k);
    var j :| 0 <= j < |tables| && Find(tables[j], k) == Some(r.value);
  }

  // ---------------------------------------------------------------------
  // What the fold does to one key

  predicate Live(x: Option<Entry>) { x.Some? && !x.value.tomb }

  /** The version survives as a live entry: it is live, newer than the recorded deletion, and with
      expiry on it has not expired. */
  predicate Survives(cfg: Config, now: nat, t: Option<nat>, x: Option<Entry>)
  {
    Live(x) && Passes(t, x.value) && Unexpired(cfg, now, x.value)
  }

  predicate Unexpired(cfg: Config, now: nat, e: Entry)
  {
    cfg.useTtl ==> !Expired(e, cfg.entryTtl, now)
  }

  function Newer(best: Option<Entry>, y: Option<Entry>): (r: Option<Entry>)
  {
    if y.Some? && y.value.time > (if best.Some? then best.value.time else 0) then y else best
  }

  predicate SameWhenSimultaneous(x: Option<Entry>, y: Option<Entry>)
  {
    x.Some? && y.Some? && x.value.time == y.value.time ==> x == y
  }

  /** The state of one key after at least one merge: `t0` is the record before the fold, `best` the
      newest version seen, `x` what the merged table holds and `t` what is recorded. */
  predicate KeyState(cfg: Config, now: nat, t0: Option<nat>, best: Option<Entry>, x: Option<Entry>, t: Option<nat>)
  {
    (x.Some? ==> best.Some? && x.value.time <= best.value.time && SameWhenSimultaneous(x, best)) &&
    NotBefore(t, t0) && (x.Some? && x.value.tomb ==> t.Some? && x.value.time <= t.value) &&
    (t == t0 || (best.Some? && t.Some? && t.value <= best.value.time)) &&
    (best.Some? && Passes(t0, best.value) ==>
       if best.value.tomb then t == Some(best.value.time) else Passes(t, best.value)) &&
    (Live(x) <==> Survives(cfg, now, t0, best)) &&
    (Live(x) ==> x == best)
  }

  function Kept(cfg: Config, now: nat, t: Option<nat>, c: Option<Entry>): (x: Option<Entry>)
  {
    if c.Some? && Keeps(cfg, now, t, c.value) then c else None
  }

  function Moved(t: Option<nat>, c: Option<Entry>): (t': Option<nat>)
  {
    if c.Some? then After(t, c.value) else t
  }

  /** The fold seen at one key: what the merged table holds and what is recorded after merging tables
      that hold `ys` into one that holds `x`. */
  function FoldKey(cfg: Config, nows: seq<nat>, x: Option<Entry>, ys: seq<Option<Entry>>, t: Option<nat>)
      : (r: (Option<Entry>, Option<nat>))
    requires |nows| == |ys|
  {
    if ys == [] then (x, t) else
    var n := |ys| - 1;
    var (x', t') := FoldKey(cfg, nows[..n], x, ys[..n], t);
    var c := Choose(x', ys[n]);
    (Kept(cfg, nows[n], t', c), Moved(t', c))
  }

  function Finds(tables: seq<seq<Entry>>, k: Key): (ys: seq<Option<Entry>>)
    ensures |ys| == |tables|
  {
    seq(|tables|, i requires 0 <= i < |tables| => Find(tables[i], k))
  }

  /** Every key is folded for itself: other keys do not matter. */
  lemma {:induction false} FoldAtKey(cfg: Config, nows: seq<nat>, acc: seq<Entry>, tables: seq<seq<Entry>>,
                                     m: Deletions, k: Key)
    requires |nows| == |tables| && Sorted(acc) && AllSorted(tables)
    ensures var (out, m') := MergeAll(cfg, nows, acc, tables, m);
            FoldKey(cfg, nows, Find(acc, k), Finds(tables, k), Recorded(m, k)) == (Find(out, k), Recorded(m', k))
    decreases |tables|
  {
    hide Keeps, Sorted, MergeTwo, Find, After;
    if tables != [] {
      var n := |tables| - 1;
      FoldAtKey(cfg, nows[..n], acc, tables[..n], m, k);
      var (out, m') := MergeAll(cfg, nows[..n], acc, tables[..n], m);
      MergeAllSorted(cfg, nows[..n], acc, tables[..n], m);
      MergeAtKey(cfg, nows[n], out, tables[n], m', k);
      assert Finds(tables, k)[..n] == Finds(tables[..n], k);
    }
  }

  lemma FirstMerge(cfg: Config, now: nat, t0: Option<nat>, x: Option<Entry>, y: Option<Entry>)
    requires x.Some? ==> x.value.time > 0
    requires y.Some? ==> y.value.time > 0
    requires SameWhenSimultaneous(x, y)
    ensures var c := Choose(x, y);
            KeyState(cfg, now, t0, Newer(x, y), Kept(cfg, now, t0, c), Moved(t0, c))
  {
    assert Choose(x, y) == Newer(x, y);
  }

  lemma LaterMerge(cfg: Config, now: nat, now': nat, t0: Option<nat>, best: Option<Entry>, x: Option<Entry>,
                   t: Option<nat>, y: Option<Entry>)
    requires KeyState(cfg, now, t0, best, x, t) && now <= now'
    requires y.Some? ==> y.value.time > 0
    requires SameWhenSimultaneous(x, y) && SameWhenSimultaneous(best, y)
    ensures var c := Choose(x, y);
            KeyState(cfg, now', t0, Newer(best, y), Kept(cfg, now', t, c), Moved(t, c))
  {
  }

  predicate NonDecreasing(nows: seq<nat>)
  {
    forall i, j | 0 <= i <= j < |nows| :: nows[i] <= nows[j]
  }

  lemma NewestOfOne(table: seq<Entry>, k: Key)
    requires Consistent([table], k)
    ensures Newest([table], k) == Find(table, k)
  {
    assert [table][..0] == [];
    assert Find([table][0], k) == Find(table, k);
  }

  lemma NewestStep(tables: seq<seq<Entry>>, table: seq<Entry>, k: Key)
    ensures Newest(tables + [table], k) == Newer(Newest(tables, k), Find(table, k))
  {
    assert (tables + [table])[..|tables|] == tables;
  }

  lemma ConsistentPrefix(tables: seq<seq<Entry>>, n: nat, k: Key)
    requires Consistent(tables, k) && n <= |tables|
    ensures Consistent(tables[..n], k)
  {
  }

  /** What a merged table holds is a version of one of its inputs. */
  lemma {:induction false} MergedVersions(cfg: Config, nows: seq<nat>, acc: seq<Entry>, tables: seq<seq<Entry>>,
                                          m: Deletions, k: Key)
    requires |nows| == |tables| && Sorted(acc) && AllSorted(tables)
    ensures var x := Find(MergeAll(cfg, nows, acc, tables, m).0, k);
            x.Some? ==> Version([acc] + tables, x.value)
    decreases |tables|
  {
    hide Keeps, Sorted, MergeTwo;
    var all := [acc] + tables;
    if tables == [] {
      assert all[0] == acc;
    } else {
      var n := |tables| - 1;
      var (out, m') := MergeAll(cfg, nows[..n], acc, tables[..n], m);
      MergedVersions(cfg, nows[..n], acc, tables[..n], m, k);
      MergeAllSorted(cfg, nows[..n], acc, tables[..n], m);
      MergeAtKey(cfg, nows[n], out, tables[n], m', k);
      var c := Choose(Find(out, k), Find(tables[n], k));
      if c.Some? && c == Find(out, k) {
        var i :| 0 <= i < |[acc] + tables[..n]| && Find(([acc] + tables[..n])[i], k) == Some(c.value);
        assert all[i] == ([acc] + tables[..n])[i];
      } else if c.Some? {
        assert all[n + 1] == tables[n];
      }
    }
  }

  lemma {:induction false} FoldState(cfg: Config, nows: seq<nat>, acc: seq<Entry>, tables: seq<seq<Entry>>,
                                     m: Deletions, k: Key)
    requires |nows| == |tables| > 0 && NonDecreasing(nows)
    requires Sorted(acc) && AllSorted(tables) && Consistent([acc] + tables, k)
    ensures var (out, m') := MergeAll(cfg, nows, acc, tables, m);
            KeyState(cfg, nows[|nows| - 1], Recorded(m, k), Newest([acc] + tables, k), Find(out, k), Recorded(m', k))
    decreases |tables|
  {
    hide KeyState, Sorted, MergeTwo, Keeps, Find, Less;
    var n := |tables| - 1;
    var all := [acc] + tables;
    var init := [acc] + tables[..n];
    assert all == init + [tables[n]];
    NewestStep(init, tables[n], k);
    var y := Find(tables[n], k);
    assert all[n + 1] == tables[n] && all[0] == acc;
    if n == 0 {
      assert init == [acc];
      assert all[..1] == [acc];
      ConsistentPrefix(all, 1, k);
      NewestOfOne(acc, k);
      assert MergeAll(cfg, nows[..n], acc, tables[..n], m) == (acc, m);
      MergeAtKey(cfg, nows[n], acc, tables[n], m, k);
      FirstMerge(cfg, nows[n], Recorded(m, k), Find(acc, k), y);
    } else {
      assert all[..n + 1] == init;
      ConsistentPrefix(all, n + 1, k);
      FoldState(cfg, nows[..n], acc, tables[..n], m, k);
      var (out, m') := MergeAll(cfg, nows[..n], acc, tables[..n], m);
      MergeAllSorted(cfg, nows[..n], acc, tables[..n], m);
      MergeAtKey(cfg, nows[n], out, tables[n], m', k);
      VersionsAgree(all, init, y, k, cfg, nows[..n], acc, tables[..n], m);
      LaterMerge(cfg, nows[n - 1], nows[n], Recorded(m, k), Newest(init, k), Find(out, k), Recorded(m', k), y);
    }
  }

  lemma VersionsAgree(all: seq<seq<Entry>>, init: seq<seq<Entry>>, y: Option<Entry>, k: Key,
                      cfg: Config, nows: seq<nat>, acc: seq<Entry>, tables: seq<seq<Entry>>, m: Deletions)
    requires |nows| == |tables| && Sorted(acc) && AllSorted(tables)
    requires init == [acc] + tables && |all| == |init| + 1 && all[..|init|] == init
    requires Consistent(all, k) && y == Find(all[|init|], k)
    ensures SameWhenSimultaneous(Find(MergeAll(cfg, nows, acc, tables, m).0, k), y)
    ensures SameWhenSimultaneous(Newest(init, k), y)
  {
    hide Sorted, MergeAll, Newest, Find;
    var x := Find(MergeAll(cfg, nows, acc, tables, m).0, k);
    MergedVersions(cfg, nows, acc, tables, m, k);
    if x.Some? {
      FindKey(MergeAll(cfg, nows, acc, tables, m).0, k);
      var i :| 0 <= i < |init| && Find(init[i], k) == Some(x.value);
      assert all[i] == init[i];
    }
    NewestIsLatest(init, k);
    var best := Newest(init, k);
    if best.Some? {
      var i :| 0 <= i < |init| && Find(init[i], k) == Some(best.value);
      assert all[i] == init[i];
    }
  }

  lemma FindKey(es: seq<Entry>, k: Key)
    ensures Find(es, k).Some? ==> Find(es, k).value.key == k
  {
  }

  /** Folding the merge over a bucket preserves the live view of every key: the result holds a live
      entry for `k` exactly when the newest version of `k` among all inputs is live, is newer than
      the deletion already recorded for `k` and, with expiry on, has not expired at the last
      merge; and the live entry is that version. */
  lemma FoldKeepsLiveView(cfg: Config, nows: seq<nat>, acc: seq<Entry>, tables: seq<seq<Entry>>, m: Deletions, k: Key)
    requires |nows| == |tables| > 0 && NonDecreasing(nows)
    requires Sorted(acc) && AllSorted(tables) && Consistent([acc] + tables, k)
    ensures var x := Find(MergeAll(cfg, nows, acc, tables, m).0, k);
            var newest := Newest([acc] + tables, k);
            (Live(x) <==>
             newest.Some? && !newest.value.tomb && (k in m ==> newest.value.time > m[k]) &&
             (cfg.useTtl ==> nows[|nows| - 1] <= newest.value.time + cfg.entryTtl)) &&
            (Live(x) ==> x == newest)
  {
    FoldState(cfg, nows, acc, tables, m, k);
  }

  /** A deletion, once recorded, is final: the recorded time never moves back, and no live version
      written at or before it comes out of any later merge. */
  lemma DeletionIsFinal(cfg: Config, nows: seq<nat>, acc: seq<Entry>, tables: seq<seq<Entry>>, m: Deletions, k: Key)
    requires |nows| == |tables| > 0 && NonDecreasing(nows)
    requires Sorted(acc) && AllSorted(tables) && Consistent([acc] + tables, k)
    ensures var (out, m') := MergeAll(cfg, nows, acc, tables, m);
            NotBefore(Recorded(m', k), Recorded(m, k)) &&
            (k in m && Live(Find(out, k)) ==> Find(out, k).value.time > m[k])
  {
    FoldState(cfg, nows, acc, tables, m, k);
  }

  /** The exact content of the merged table for every key, deletion markers included. A marker that some
      merge before the last one has already looked at is dropped, because the check compares it with its
      own recorded time. A key whose newest version is live and
      has expired comes out with the marker of the last table, if that is newer than what was held and
      recorded before the last merge, and with nothing otherwise. */
  lemma FoldExactly(cfg: Config, nows: seq<nat>, acc: seq<Entry>, tables: seq<seq<Entry>>, m: Deletions, k: Key)
    requires |nows| == |tables| > 1 && NonDecreasing(nows)
    requires Sorted(acc) && AllSorted(tables) && Consistent([acc] + tables, k)
    ensures var x := Find(MergeAll(cfg, nows, acc, tables, m).0, k);
            var newest, now := Newest([acc] + tables, k), nows[|nows| - 1];
            if newest.None? || (k in m && newest.value.time <= m[k]) then x == None
            else if !newest.value.tomb then
              if cfg.useTtl && now > newest.value.time + cfg.entryTtl then
                var n := |tables| - 1;
                var before := FoldKey(cfg, nows[..n], Find(acc, k), Finds(tables[..n], k), Recorded(m, k));
                x == LeftOver(cfg, now, before, Find(tables[n], k))
              else x == newest
            else if Version([acc] + tables[..|tables| - 1], newest.value) ||
                    now > newest.value.time + cfg.tombstoneTtl then x == None
            else x == newest
  {
    hide Sorted, MergeAll, Find, Newest, Version, FoldKey, LeftOver;
    FoldOutcome(cfg, nows, acc, tables, m, k);
  }

  lemma FoldOutcome(cfg: Config, nows: seq<nat>, acc: seq<Entry>, tables: seq<seq<Entry>>, m: Deletions, k: Key)
    requires |nows| == |tables| > 1 && NonDecreasing(nows)
    requires Sorted(acc) && AllSorted(tables) && Consistent([acc] + tables, k)
    ensures var x := Find(MergeAll(cfg, nows, acc, tables, m).0, k);
            var newest := Newest([acc] + tables, k);
            if newest.None? || !Passes(Recorded(m, k), newest.value) then x == None
            else if !newest.value.tomb then
              if Unexpired(cfg, nows[|nows| - 1], newest.value) then x == newest
              else var n := |tables| - 1;
                   var before := FoldKey(cfg, nows[..n], Find(acc, k), Finds(tables[..n], k), Recorded(m, k));
                   x == LeftOver(cfg, nows[n], before, Find(tables[n], k))
            else if Version([acc] + tables[..|tables| - 1], newest.value) ||
                    Expired(newest.value, cfg.tombstoneTtl, nows[|nows| - 1]) then x == None
            else x == newest
  {
    hide Sorted, MergeTwo, Keeps, Find, Less, Newest, KeyState, Version, Passes, Expired, Unexpired, FoldKey, LeftOver;
    var n := |tables| - 1;
    var all := [acc] + tables;
    var init := [acc] + tables[..n];
    assert all == init + [tables[n]] && all[..n + 1] == init;
    NewestStep(init, tables[n], k);
    ConsistentPrefix(all, n + 1, k);
    FoldState(cfg, nows[..n], acc, tables[..n], m, k);
    var (out, m') := MergeAll(cfg, nows[..n], acc, tables[..n], m);
    MergeAllSorted(cfg, nows[..n], acc, tables[..n], m);
    MergeAtKey(cfg, nows[n], out, tables[n], m', k);
    assert all[n + 1] == tables[n];
    VersionsAgree(all, init, Find(tables[n], k), k, cfg, nows[..n], acc, tables[..n], m);
    FoldAtKey(cfg, nows[..n], acc, tables[..n], m, k);
    NewestSeenBefore(init, Find(tables[n], k), k);
    LastMerge(cfg, nows[n - 1], nows[n], Recorded(m, k), Newest(init, k), Find(out, k), Recorded(m', k),
              Find(tables[n], k));
  }

  /** What a merge leaves of a key whose newest version has expired: the marker of the last table, if it is
      newer than what was held and recorded before. */
  function LeftOver(cfg: Config, now: nat, before: (Option<Entry>, Option<nat>), y: Option<Entry>): (x: Option<Entry>)
  {
    if y.Some? && y.value.tomb && Keeps(cfg, now, before.1, y.value) &&
       (before.0.Some? ==> before.0.value.time < y.value.time)
    then y else None
  }

  /** The newest version of all is also a version of the earlier tables exactly when the last table
      brings nothing newer. */
  lemma NewestSeenBefore(init: seq<seq<Entry>>, y: Option<Entry>, k: Key)
    requires y.Some? ==> y.value.time > 0 && y.value.key == k
    ensures var newest := Newer(Newest(init, k), y);
            newest.Some? ==> (Version(init, newest.value) <==> newest == Newest(init, k))
  {
    NewestIsLatest(init, k);
  }

  lemma LastMerge(cfg: Config, now: nat, now': nat, t0: Option<nat>, best: Option<Entry>, x: Option<Entry>,
                  t: Option<nat>, y: Option<Entry>)
    requires KeyState(cfg, now, t0, best, x, t) && now <= now'
    requires y.Some? ==> y.value.time > 0
    requires SameWhenSimultaneous(x, y) && SameWhenSimultaneous(best, y)
    ensures var newest := Newer(best, y);
            var x' := Kept(cfg, now', t, Choose(x, y));
            if newest.None? || !Passes(t0, newest.value) then x' == None
            else if !newest.value.tomb then
              if Unexpired(cfg, now', newest.value) then x' == newest else x' == LeftOver(cfg, now', (x, t), y)
            else if newest == best || Expired(newest.value, cfg.tombstoneTtl, now') then x' == None
            else x' == newest
  {
  }

  // ---------------------------------------------------------------------
  // Only differences of times matter

  function Later(es: seq<Entry>, d: nat): (r: seq<Entry>)
    ensures |r| == |es| && forall i | 0 <= i < |es| :: r[i] == es[i].(time := es[i].time + d)
  {
    seq(|es|, i requires 0 <= i < |es| => es[i].(time := es[i].time + d))
  }

  function LaterMarks(m: Deletions, d: nat): (r: Deletions) { map k | k in m :: m[k] + d }

  function LaterNows(nows: seq<nat>, d: nat): (r: seq<nat>)
    ensures |r| == |nows| && forall i | 0 <= i < |nows| :: r[i] == nows[i] + d
  {
    seq(|nows|, i requires 0 <= i < |nows| => nows[i] + d)
  }

  function LaterTables(tables: seq<seq<Entry>>, d: nat): (r: seq<seq<Entry>>)
    ensures |r| == |tables| && forall i | 0 <= i < |tables| :: r[i] == Later(tables[i], d)
  {
    seq(|tables|, i requires 0 <= i < |tables| => Later(tables[i], d))
  }

  lemma DecisionsShift(cfg: Config, now: nat, m: Deletions, e: Entry, d: nat)
    ensures var e', m' := e.(time := e.time + d), LaterMarks(m, d);
            (Keeps(cfg, now + d, Recorded(m', e.key), e') <==> Keeps(cfg, now, Recorded(m, e.key), e)) &&
            Note(m', e') == LaterMarks(Note(m, e), d)
  {
  }

  lemma NextShifts(a: seq<Entry>, b: seq<Entry>, d: nat)
    requires a != [] || b != []
    ensures var p, q := Next(a, b), Next(Later(a, d), Later(b, d));
            q.entry == p.entry.(time := p.entry.time + d) && q.left == Later(p.left, d) && q.right == Later(p.right, d)
  {
    hide Less;
  }

  lemma {:induction false} MergeShifts(cfg: Config, now: nat, a: seq<Entry>, b: seq<Entry>, m: Deletions, d: nat)
    ensures var (out, m') := MergeTwo(cfg, now, a, b, m);
            MergeTwo(cfg, now + d, Later(a, d), Later(b, d), LaterMarks(m, d)) == (Later(out, d), LaterMarks(m', d))
    decreases |a| + |b|
  {
    hide Keeps, Note, Next;
    if a != [] || b != [] {
      NextShifts(a, b, d);
      var p := Next(a, b);
      DecisionsShift(cfg, now, m, p.entry, d);
      MergeShifts(cfg, now, p.left, p.right, Note(m, p.entry), d);
      var rest := MergeTwo(cfg, now, p.left, p.right, Note(m, p.entry)).0;
      assert Later([p.entry] + rest, d) == [p.entry.(time := p.entry.time + d)] + Later(rest, d);
      assert Later([] + rest, d) == [] + Later(rest, d);
    }
  }

  /** Moving all times, all recorded deletions and all clock readings by the same amount moves the result by it
      and changes no decision. */
  lemma {:induction false} FoldShifts(cfg: Config, nows: seq<nat>, acc: seq<Entry>, tables: seq<seq<Entry>>,
                                      m: Deletions, d: nat)
    requires |nows| == |tables|
    ensures var (out, m') := MergeAll(cfg, nows, acc, tables, m);
            MergeAll(cfg, LaterNows(nows, d), Later(acc, d), LaterTables(tables, d), LaterMarks(m, d))
            == (Later(out, d), LaterMarks(m', d))
    decreases |tables|
  {
    hide MergeTwo, LaterMarks;
    if tables != [] {
      var n := |tables| - 1;
      FoldShifts(cfg, nows[..n], acc, tables[..n], m, d);
      assert LaterTables(tables, d)[..n] == LaterTables(tables[..n], d);
      assert LaterNows(nows, d)[..n] == LaterNows(nows[..n], d);
      var (out, m') := MergeAll(cfg, nows[..n], acc, tables[..n], m);
      MergeShifts(cfg, nows[n], out, tables[n], m', d);
    }
  }

  // ---------------------------------------------------------------------
  // Where the deletions on record come from

  /** The table holds a marker of the key with the time. */
  ghost predicate MarkerIn(es: seq<Entry>, k: Key, time: nat)
  {
    exists e | e in es :: e.key == k && e.tomb && e.time == time
  }

  ghost predicate MarkerInSome(tables: seq<seq<Entry>>, k: Key, time: nat)
  {
    exists i :: 0 <= i < |tables| && MarkerIn(tables[i], k, time)
  }

  ghost predicate Noted(m: Deletions, k: Key, time: nat) { k in m && m[k] == time }

  lemma {:induction false} MergeTwoNotes(cfg: Config, now: nat, a: seq<Entry>, b: seq<Entry>, m: Deletions, k: Key,
                                         time: nat)
    requires Noted(MergeTwo(cfg, now, a, b, m).1, k, time)
    ensures Noted(m, k, time) || MarkerIn(a, k, time) || MarkerIn(b, k, time)
    decreases |a| + |b|
  {
    hide Keeps, Less, Passes;
    if a != [] || b != [] {
      var p := Next(a, b);
      MergeTwoNotes(cfg, now, p.left, p.right, Note(m, p.entry), k, time);
      assert p.entry in a || p.entry in b;
      assert forall e | e in p.left :: e in a;
      assert forall e | e in p.right :: e in b;
    }
  }

  lemma {:induction false} MergeTwoFrom(cfg: Config, now: nat, a: seq<Entry>, b: seq<Entry>, m: Deletions)
    ensures forall e | e in MergeTwo(cfg, now, a, b, m).0 :: e in a || e in b
    decreases |a| + |b|
  {
    hide Keeps, Less, Note;
    if a != [] || b != [] {
      var p := Next(a, b);
      MergeTwoFrom(cfg, now, p.left, p.right, Note(m, p.entry));
      assert forall e | e in p.left :: e in a;
      assert forall e | e in p.right :: e in b;
    }
  }

  lemma {:induction false} MergeAllFrom(cfg: Config, nows: seq<nat>, acc: seq<Entry>, tables: seq<seq<Entry>>,
                                        m: Deletions, k: Key, time: nat)
    requires |nows| == |tables| && MarkerIn(MergeAll(cfg, nows, acc, tables, m).0, k, time)
    ensures MarkerInSome([acc] + tables, k, time)
    decreases |tables|
  {
    hide MergeTwo;
    if tables == [] {
      assert ([acc] + tables)[0] == acc;
    } else {
      var n := |tables| - 1;
      var (out, m1) := MergeAll(cfg, nows[..n], acc, tables[..n], m);
      MergeTwoFrom(cfg, nows[n], out, tables[n], m1);
      if MarkerIn(out, k, time) {
        MergeAllFrom(cfg, nows[..n], acc, tables[..n], m, k, time);
        MarkerWithin(acc, tables, n, k, time);
      } else {
        assert ([acc] + tables)[n + 1] == tables[n];
      }
    }
  }

  lemma MarkerWithin(acc: seq<Entry>, tables: seq<seq<Entry>>, n: nat, k: Key, time: nat)
    requires n <= |tables| && MarkerInSome([acc] + tables[..n], k, time)
    ensures MarkerInSome([acc] + tables, k, time)
  {
    hide MarkerIn;
    var i :| 0 <= i <= n && MarkerIn(([acc] + tables[..n])[i], k, time);
    assert ([acc] + tables)[i] == ([acc] + tables[..n])[i];
  }

  /** A deletion on record after a fold was on record before, or one of the tables holds its marker. */
  lemma {:induction false} MergeAllNotes(cfg: Config, nows: seq<nat>, acc: seq<Entry>, tables: seq<seq<Entry>>,
                                         m: Deletions, k: Key, time: nat)
    requires |nows| == |tables| && Noted(MergeAll(cfg, nows, acc, tables, m).1, k, time)
    ensures Noted(m, k, time) || MarkerInSome([acc] + tables, k, time)
    decreases |tables|
  {
    hide MergeTwo, MarkerIn, MarkerInSome;
    if tables != [] {
      var n := |tables| - 1;
      var (out, m1) := MergeAll(cfg, nows[..n], acc, tables[..n], m);
      MergeTwoNotes(cfg, nows[n], out, tables[n], m1, k, time);
      if Noted(m1, k, time) {
        MergeAllNotes(cfg, nows[..n], acc, tables[..n], m, k, time);
        if !Noted(m, k, time) {
          MarkerWithin(acc, tables, n, k, time);
        }
      } else if MarkerIn(out, k, time) {
        MergeAllFrom(cfg, nows[..n], acc, tables[..n], m, k, time);
        MarkerWithin(acc, tables, n, k, time);
      } else {
        MarkerAt([acc] + tables, n + 1, k, time);
      }
    }
  }

  lemma MarkerAt(tables: seq<seq<Entry>>, i: nat, k: Key, time: nat)
    requires i < |tables| && MarkerIn(tables[i], k, time)
    ensures MarkerInSome(tables, k, time)
  {
  }
}
