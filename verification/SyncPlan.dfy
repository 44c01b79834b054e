/** Stateless sync planning: what a plan contains, and what applying it does to the destination. */
module SyncPlan {
  import opened Words

  datatype SyncMode = OneWay | Mirror | AppendOnly
  datatype Compare = Size | Checksum
  datatype Action = Create | Update
  datatype TreeEntry = TreeEntry(rel: string, size: nat)
  datatype FsEntry = FsEntry(path: string, size: nat, hash: Option<string>)
  datatype PlannedTransfer = PlannedTransfer(entry: TreeEntry, action: Action)
  datatype Plan = Plan(transfers: seq<PlannedTransfer>, deletes: seq<string>, skipped: nat, protected: nat)

  // ---------- sorted deletions ----------

  /** Lexicographic order by code point. */
  predicate LexLe(a: string, b: string) {
    a == [] || (b != [] && (a[0] < b[0] || (a[0] == b[0] && LexLe(a[1..], b[1..]))))
  }

  lemma {:induction false} LexTotal(a: string, b: string)
    ensures LexLe(a, b) || LexLe(b, a)
    decreases |a|
  {
    if a != [] && b != [] && a[0] == b[0] { LexTotal(a[1..], b[1..]); }
  }

  lemma {:induction false} LexTransitive(a: string, b: string, c: string)
    requires LexLe(a, b) && LexLe(b, c)
    ensures LexLe(a, c)
    decreases |a|
  {
    if a != [] && a[0] == b[0] && b[0] == c[0] { LexTransitive(a[1..], b[1..], c[1..]); }
  }

  /** Decided at the first difference, and a prefix comes first. */
  lemma {:induction false} LexIs(a: string, b: string, k: nat)
    requires k <= |a| && k <= |b| && a[..k] == b[..k] && (k == |a| || k == |b| || a[k] != b[k])
    ensures LexLe(a, b) <==> k == |a| || (k < |b| && a[k] < b[k])
    decreases k
  {
    if k > 0 {
      assert a[..k][0] == b[..k][0] && a[..k][1..] == a[1..][..k - 1] && b[..k][1..] == b[1..][..k - 1];
      LexIs(a[1..], b[1..], k - 1);
    }
  }

  predicate Sorted(s: seq<string>) { forall i, j :: 0 <= i < j < |s| ==> LexLe(s[i], s[j]) }

  function Insert(x: string, s: seq<string>): seq<string> {
    if s == [] || LexLe(x, s[0]) then [x] + s else [s[0]] + Insert(x, s[1..])
  }

  function Sort(s: seq<string>): seq<string> {
    if s == [] then [] else Insert(s[0], Sort(s[1..]))
  }

  lemma {:induction false} InsertSorts(x: string, s: seq<string>)
    requires Sorted(s)
    ensures Sorted(Insert(x, s)) && multiset(Insert(x, s)) == multiset(s) + multiset{x}
    decreases |s|
  {
    if s == [] {
    } else if LexLe(x, s[0]) {
      forall j | 0 <= j < |s| ensures LexLe(x, s[j]) {
        if j > 0 { LexTransitive(x, s[0], s[j]); }
      }
    } else {
      LexTotal(x, s[0]);
      forall i | 0 <= i < |s| - 1 ensures s[1..][i] == s[i + 1] {}
      InsertSorts(x, s[1..]);
      assert s == [s[0]] + s[1..];
      FirstStaysFirst(x, s, Insert(x, s[1..]));
    }
  }

  lemma FirstStaysFirst(x: string, s: seq<string>, t: seq<string>)
    requires s != [] && Sorted(s) && LexLe(s[0], x) && multiset(t) == multiset(s[1..]) + multiset{x} && Sorted(t)
    ensures Sorted([s[0]] + t)
  {
    hide LexLe;
    forall j | 0 <= j < |t| ensures LexLe(s[0], t[j]) {
      assert t[j] in multiset(t);
      if t[j] != x { assert t[j] in s[1..]; }
    }
  }

  lemma {:induction false} SortSorts(s: seq<string>)
    ensures Sorted(Sort(s)) && multiset(Sort(s)) == multiset(s)
    decreases |s|
  {
    if s != [] {
      SortSorts(s[1..]);
      InsertSorts(s[0], Sort(s[1..]));
      assert s == [s[0]] + s[1..];
    }
  }

  // ---------- the plan ----------

  /** The remote listing by path; a later entry for the same path wins. */
  function ByPath(remote: seq<FsEntry>): map<string, FsEntry> {
    if remote == [] then map[]
    else
      var n := |remote| - 1;
      ByPath(remote[..n])[remote[n].path := remote[n]]
  }

  predicate Same(compare: Compare, size: nat, hash: Option<string>, r: FsEntry) {
    match compare
    case Size => size == r.size
    case Checksum => hash.Some? && r.hash.Some? && hash.value == r.hash.value
  }

  datatype Verdict = Send(action: Action) | Unchanged | Protected

  function Judge(e: TreeEntry, hash: Option<string>, remote: map<string, FsEntry>, mode: SyncMode, compare: Compare): Verdict {
    if e.rel !in remote then Send(Create)
    else if mode == AppendOnly then Protected
    else if Same(compare, e.size, hash, remote[e.rel]) then Unchanged
    else Send(Update)
  }

  function HashAt(hashes: seq<Option<string>>, i: nat): Option<string> { if i < |hashes| then hashes[i] else None }

  /** The verdict on each local entry, in listing order. */
  function Verdicts(local: seq<TreeEntry>, hashes: seq<Option<string>>, remote: map<string, FsEntry>, mode: SyncMode,
                    compare: Compare): seq<Verdict>
  {
    seq(|local|, i requires 0 <= i < |local| => Judge(local[i], HashAt(hashes, i), remote, mode, compare))
  }

  /** The entries judged to be sent, in listing order. */
  function Sends(local: seq<TreeEntry>, vs: seq<Verdict>): seq<PlannedTransfer>
    requires |local| == |vs|
  {
    if local == [] then []
    else
      var n := |local| - 1;
      Sends(local[..n], vs[..n]) + if vs[n].Send? then [PlannedTransfer(local[n], vs[n].action)] else []
  }

  function Count(vs: seq<Verdict>, v: Verdict): nat { multiset(vs)[v] }

  /** Remote paths with no local counterpart, in listing order. */
  function Extras(remote: seq<FsEntry>, paths: set<string>): seq<string> {
    if remote == [] then []
    else
      var n := |remote| - 1;
      Extras(remote[..n], paths) + if remote[n].path in paths then [] else [remote[n].path]
  }

  function LocalPaths(local: seq<TreeEntry>): set<string> { set i | 0 <= i < |local| :: local[i].rel }

  method IndexRemote(remote: seq<FsEntry>) returns (byPath: map<string, FsEntry>)
    ensures byPath == ByPath(remote)
  {
    byPath := map[];
    for i := 0 to |remote|
      invariant byPath == ByPath(remote[..i])
    {
      assert remote[..i + 1][..i] == remote[..i];
      byPath := byPath[remote[i].path := remote[i]];
    }
    assert remote[..|remote|] == remote;
  }

  method JudgeAll(local: seq<TreeEntry>, byPath: map<string, FsEntry>, mode: SyncMode, compare: Compare,
                  hashes: seq<Option<string>>) returns (transfers: seq<PlannedTransfer>, skipped: nat, protected: nat)
    ensures var vs := Verdicts(local, hashes, byPath, mode, compare);
      && transfers == Sends(local, vs)
      && skipped == Count(vs, Unchanged) && protected == Count(vs, Protected)
  {
    hide Sends;
    transfers, skipped, protected := [], 0, 0;
    ghost var vs := Verdicts(local, hashes, byPath, mode, compare);
    assert Sends([], []) == [] by { NothingSent(); }
    for i := 0 to |local|
      invariant transfers == Sends(local[..i], vs[..i])
      invariant skipped == Count(vs[..i], Unchanged) && protected == Count(vs[..i], Protected)
    {
      SendsStep(local, vs, i);
      assert vs[..i + 1] == vs[..i] + [vs[i]];
      var e := local[i];
      if e.rel !in byPath {
        transfers := transfers + [PlannedTransfer(e, Create)];
      } else if mode == AppendOnly {
        protected := protected + 1;
      } else if Same(compare, e.size, HashAt(hashes, i), byPath[e.rel]) {
        skipped := skipped + 1;
      } else {
        transfers := transfers + [PlannedTransfer(e, Update)];
      }
    }
    assert local[..|local|] == local && vs[..|local|] == vs;
  }

  lemma NothingSent()
    ensures Sends([], []) == []
  {}

  method ListExtras(remote: seq<FsEntry>, paths: set<string>) returns (extras: seq<string>)
    ensures extras == Extras(remote, paths)
  {
    extras := [];
    for i := 0 to |remote|
      invariant extras == Extras(remote[..i], paths)
    {
      assert remote[..i + 1][..i] == remote[..i];
      if remote[i].path !in paths { extras := extras + [remote[i].path]; }
    }
    assert remote[..|remote|] == remote;
  }

  /** The plan for two listings. */
  ghost predicate IsPlan(plan: Plan, local: seq<TreeEntry>, remote: seq<FsEntry>, mode: SyncMode, compare: Compare,
                         hashes: seq<Option<string>>)
  {
    var vs := Verdicts(local, hashes, ByPath(remote), mode, compare);
    && plan.transfers == Sends(local, vs)
    && plan.skipped == Count(vs, Unchanged) && plan.protected == Count(vs, Protected)
    && plan.deletes == if mode == Mirror then Sort(Extras(remote, LocalPaths(local))) else []
  }

  /** Judge every local entry, then in mirror mode list what only the destination has, sorted. */
  method MakePlan(local: seq<TreeEntry>, remote: seq<FsEntry>, mode: SyncMode, compare: Compare,
                  hashes: seq<Option<string>>) returns (plan: Plan)
    ensures IsPlan(plan, local, remote, mode, compare, hashes)
    ensures |plan.transfers| + plan.skipped + plan.protected == |local|
    ensures Sorted(plan.deletes) && (mode != Mirror ==> plan.deletes == [])
    ensures mode == Mirror ==> multiset(plan.deletes) == multiset(Extras(remote, LocalPaths(local)))
  {
    hide ByPath, Sends, Count, Sort, Sorted, Extras, LocalPaths;
    var byPath := IndexRemote(remote);
    var transfers, skipped, protected := JudgeAll(local, byPath, mode, compare, hashes);
    EveryFileIsCounted(local, Verdicts(local, hashes, byPath, mode, compare));
    SortSorts([]);
    assert Sort([]) == [] by { assert |multiset(Sort([]))| == 0; }
    var deletes: seq<string> := [];
    if mode == Mirror {
      deletes := ListExtras(remote, LocalPaths(local));
      SortSorts(deletes);
      deletes := Sort(deletes);
    }
    plan := Plan(transfers, deletes, skipped, protected);
  }

  lemma SendsStep(local: seq<TreeEntry>, vs: seq<Verdict>, i: nat)
    requires |local| == |vs| && i < |local|
    ensures Sends(local[..i + 1], vs[..i + 1]) ==
      Sends(local[..i], vs[..i]) + if vs[i].Send? then [PlannedTransfer(local[i], vs[i].action)] else []
  {
    assert local[..i + 1][..i] == local[..i] && vs[..i + 1][..i] == vs[..i];
  }

  /** Every local file is sent, skipped or protected, exactly one of the three. */
  lemma {:induction false} EveryFileIsCounted(local: seq<TreeEntry>, vs: seq<Verdict>)
    requires |local| == |vs|
    ensures |Sends(local, vs)| + Count(vs, Unchanged) + Count(vs, Protected) == |local|
    decreases |local|
  {
    if local != [] {
      var n := |local| - 1;
      EveryFileIsCounted(local[..n], vs[..n]);
      CountOneMore(vs[..n], vs[n], Unchanged);
      CountOneMore(vs[..n], vs[n], Protected);
      hide Count;
      assert vs == vs[..n] + [vs[n]];
    }
  }

  lemma CountOneMore(vs: seq<Verdict>, v: Verdict, x: Verdict)
    ensures Count(vs + [v], x) == Count(vs, x) + if v == x then 1 else 0
  {}

  // ---------- applying a plan ----------

  /** A stored file, as far as either comparison can see it. */
  datatype Info = Info(size: nat, hash: string)

  type Tree = map<string, Info>

  /** A listing of the tree: every path once, with its size, and its hash when one was asked for. */
  ghost predicate Lists(remote: seq<FsEntry>, tree: Tree, hashed: bool) {
    && (forall i, j :: 0 <= i < j < |remote| ==> remote[i].path != remote[j].path)
    && (forall i :: 0 <= i < |remote| ==> remote[i].path in tree && remote[i] == Listed(remote[i].path, tree, hashed))
    && (forall p :: p in tree ==> exists i :: 0 <= i < |remote| && remote[i].path == p)
  }

  function Listed(p: string, tree: Tree, hashed: bool): FsEntry
    requires p in tree
  {
    FsEntry(p, tree[p].size, if hashed then Some(tree[p].hash) else None)
  }

  /** A local walk of the tree, with the hash of every file beside it when comparing checksums. */
  ghost predicate Walks(local: seq<TreeEntry>, hashes: seq<Option<string>>, tree: Tree, compare: Compare) {
    && (forall i, j :: 0 <= i < j < |local| ==> local[i].rel != local[j].rel)
    && (forall i :: 0 <= i < |local| ==> local[i].rel in tree && local[i].size == tree[local[i].rel].size)
    && (forall p :: p in tree ==> exists i :: 0 <= i < |local| && local[i].rel == p)
    && (compare == Checksum ==> forall i :: 0 <= i < |local| ==> HashAt(hashes, i) == Some(tree[local[i].rel].hash))
  }

  ghost predicate Agree(compare: Compare, a: Info, b: Info) {
    if compare == Size then a.size == b.size else a.hash == b.hash
  }

  /** Write each file in turn. */
  function Write(ts: seq<PlannedTransfer>, dest: Tree, src: Tree): Tree
    requires forall i :: 0 <= i < |ts| ==> ts[i].entry.rel in src
  {
    if ts == [] then dest
    else
      var n := |ts| - 1;
      Write(ts[..n], dest, src)[ts[n].entry.rel := src[ts[n].entry.rel]]
  }

  function Sent(ts: seq<PlannedTransfer>): set<string> { set i | 0 <= i < |ts| :: ts[i].entry.rel }

  lemma {:induction false} WriteIs(ts: seq<PlannedTransfer>, dest: Tree, src: Tree)
    requires forall i :: 0 <= i < |ts| ==> ts[i].entry.rel in src
    ensures Write(ts, dest, src).Keys == dest.Keys + Sent(ts)
    ensures forall p :: p in Write(ts, dest, src) ==>
      Write(ts, dest, src)[p] == if p in Sent(ts) then src[p] else dest[p]
    decreases |ts|
  {
    if ts != [] {
      var n := |ts| - 1;
      forall i | 0 <= i < n ensures ts[..n][i] == ts[i] {}
      WriteIs(ts[..n], dest, src);
      assert Sent(ts) == Sent(ts[..n]) + {ts[n].entry.rel};
    }
  }

  /** The destination after a plan: transfers written, deletions removed. */
  function Applied(plan: Plan, dest: Tree, src: Tree): Tree
    requires forall i :: 0 <= i < |plan.transfers| ==> plan.transfers[i].entry.rel in src
  {
    Write(plan.transfers, dest, src) - (set p | p in plan.deletes)
  }

  lemma {:induction false} ByPathFinds(remote: seq<FsEntry>, p: string)
    ensures p in ByPath(remote) <==> exists i :: 0 <= i < |remote| && remote[i].path == p
    ensures p in ByPath(remote) ==> exists i :: 0 <= i < |remote| && remote[i].path == p && remote[i] == ByPath(remote)[p]
    decreases |remote|
  {
    if remote != [] {
      var n := |remote| - 1;
      forall i | 0 <= i < n ensures remote[..n][i] == remote[i] {}
      ByPathFinds(remote[..n], p);
      if p != remote[n].path && p in ByPath(remote) {
        var i :| 0 <= i < n && remote[..n][i].path == p && remote[..n][i] == ByPath(remote[..n])[p];
        assert remote[i] == ByPath(remote)[p];
      }
      if i :| 0 <= i < |remote| && remote[i].path == p && p != remote[n].path { assert remote[..n][i].path == p; }
    }
  }

  lemma ListingIndexed(remote: seq<FsEntry>, tree: Tree, hashed: bool)
    requires Lists(remote, tree, hashed)
    ensures ByPath(remote).Keys == tree.Keys
    ensures forall p :: p in tree ==> ByPath(remote)[p] == Listed(p, tree, hashed)
  {
    forall p: string
      ensures p in ByPath(remote) <==> p in tree
      ensures p in tree ==> ByPath(remote)[p] == Listed(p, tree, hashed)
    {
      ByPathFinds(remote, p);
    }
  }

  lemma {:induction false} SentIff(local: seq<TreeEntry>, vs: seq<Verdict>, p: string)
    requires |local| == |vs|
    ensures p in Sent(Sends(local, vs)) <==> exists i :: 0 <= i < |local| && local[i].rel == p && vs[i].Send?
    ensures forall k :: 0 <= k < |Sends(local, vs)| ==> exists i :: 0 <= i < |local| && local[i] == Sends(local, vs)[k].entry
    decreases |local|
  {
    if local != [] {
      var n := |local| - 1;
      SentIff(local[..n], vs[..n], p);
      var before, all := Sends(local[..n], vs[..n]), Sends(local, vs);
      forall i | 0 <= i < n ensures local[..n][i] == local[i] && vs[..n][i] == vs[i] {}
      forall k | 0 <= k < |all| ensures exists i :: 0 <= i < |local| && local[i] == all[k].entry {
        if k < |before| {
          assert all[k] == before[k];
          var i :| 0 <= i < n && local[..n][i] == before[k].entry;
          assert local[i] == all[k].entry;
        } else {
          assert local[n] == all[k].entry;
        }
      }
      assert Sent(all) == Sent(before) + if vs[n].Send? then {local[n].rel} else {} by {
        assert forall k :: 0 <= k < |before| ==> all[k] == before[k];
        assert vs[n].Send? ==> all[|before|].entry == local[n];
      }
      if i :| 0 <= i < |local| && local[i].rel == p && vs[i].Send? {
        if i < n { assert local[..n][i].rel == p && vs[..n][i].Send?; }
      }
    }
  }

  lemma {:induction false} ExtrasAre(remote: seq<FsEntry>, paths: set<string>, p: string)
    ensures p in Extras(remote, paths) <==> p !in paths && exists i :: 0 <= i < |remote| && remote[i].path == p
    decreases |remote|
  {
    if remote != [] {
      var n := |remote| - 1;
      ExtrasAre(remote[..n], paths, p);
      forall i | 0 <= i < n ensures remote[..n][i] == remote[i] {}
      if i :| 0 <= i < |remote| && remote[i].path == p {
        if i < n { assert remote[..n][i].path == p; }
      }
    }
  }

  /** Both sides are described truthfully; comparing checksums needs them from the destination too. */
  ghost predicate Surveyed(local: seq<TreeEntry>, hashes: seq<Option<string>>, src: Tree, remote: seq<FsEntry>, dest: Tree,
                           compare: Compare, hashed: bool)
  {
    Walks(local, hashes, src, compare) && Lists(remote, dest, hashed) && (compare == Checksum ==> hashed)
  }

  /** What is sent: what the destination lacks and, outside append-only mode, what compares different. */
  predicate Stale(p: string, src: Tree, dest: Tree, mode: SyncMode, compare: Compare)
    requires p in src
  {
    p !in dest || (mode != AppendOnly && if compare == Size then src[p].size != dest[p].size else src[p].hash != dest[p].hash)
  }

  lemma {:induction false} ActionsFromVerdicts(local: seq<TreeEntry>, vs: seq<Verdict>, k: nat) returns (i: nat)
    requires |local| == |vs| && k < |Sends(local, vs)|
    ensures i < |local| && vs[i].Send? && Sends(local, vs)[k] == PlannedTransfer(local[i], vs[i].action)
    decreases |local|
  {
    var n := |local| - 1;
    var before := Sends(local[..n], vs[..n]);
    if k < |before| {
      i := ActionsFromVerdicts(local[..n], vs[..n], k);
    } else {
      i := n;
    }
  }

  /** A planned transfer creates what the destination lacks and updates what it has. */
  lemma ActionsAre(local: seq<TreeEntry>, hashes: seq<Option<string>>, src: Tree, remote: seq<FsEntry>, dest: Tree,
                   mode: SyncMode, compare: Compare, hashed: bool, k: nat)
    requires Surveyed(local, hashes, src, remote, dest, compare, hashed)
    requires k < |Sends(local, Verdicts(local, hashes, ByPath(remote), mode, compare))|
    ensures var t := Sends(local, Verdicts(local, hashes, ByPath(remote), mode, compare))[k];
      t.action == if t.entry.rel in dest then Update else Create
  {
    hide ByPath, Sends, Lists;
    var vs := Verdicts(local, hashes, ByPath(remote), mode, compare);
    ListingIndexed(remote, dest, hashed);
    var i := ActionsFromVerdicts(local, vs, k);
    assert vs[i] == Judge(local[i], HashAt(hashes, i), ByPath(remote), mode, compare);
  }

  /** A file the destination has is protected in append-only mode, else unchanged exactly when it compares equal. */
  lemma VerdictIs(local: seq<TreeEntry>, hashes: seq<Option<string>>, src: Tree, remote: seq<FsEntry>, dest: Tree,
                  mode: SyncMode, compare: Compare, hashed: bool, i: nat)
    requires Surveyed(local, hashes, src, remote, dest, compare, hashed) && i < |local|
    ensures var v, p := Verdicts(local, hashes, ByPath(remote), mode, compare)[i], local[i].rel;
      && p in src && (v.Protected? <==> p in dest && mode == AppendOnly)
      && (v.Unchanged? <==> p in dest && mode != AppendOnly && Agree(compare, src[p], dest[p]))
  {
    hide ByPath, Lists;
    ListingIndexed(remote, dest, hashed);
  }

  lemma SentAre(local: seq<TreeEntry>, hashes: seq<Option<string>>, src: Tree, remote: seq<FsEntry>, dest: Tree,
                mode: SyncMode, compare: Compare, hashed: bool, p: string)
    requires Surveyed(local, hashes, src, remote, dest, compare, hashed)
    ensures var ts := Sends(local, Verdicts(local, hashes, ByPath(remote), mode, compare));
      && (p in Sent(ts) <==> p in src && Stale(p, src, dest, mode, compare))
      && (forall k :: 0 <= k < |ts| ==> ts[k].entry.rel in src)
  {
    hide ByPath, Sends, Sent, Lists;
    var vs := Verdicts(local, hashes, ByPath(remote), mode, compare);
    ListingIndexed(remote, dest, hashed);
    SentIff(local, vs, p);
    forall i | 0 <= i < |local| ensures vs[i].Send? <==> Stale(local[i].rel, src, dest, mode, compare) {
      assert vs[i] == Judge(local[i], HashAt(hashes, i), ByPath(remote), mode, compare);
    }
  }

  lemma DeletesAre(plan: Plan, local: seq<TreeEntry>, hashes: seq<Option<string>>, src: Tree, remote: seq<FsEntry>, dest: Tree,
                   mode: SyncMode, compare: Compare, hashed: bool, p: string)
    requires Surveyed(local, hashes, src, remote, dest, compare, hashed) && IsPlan(plan, local, remote, mode, compare, hashes)
    ensures p in plan.deletes <==> mode == Mirror && p in dest && p !in src
  {
    if mode == Mirror {
      var extras := Extras(remote, LocalPaths(local));
      ExtrasAre(remote, LocalPaths(local), p);
      SortSorts(extras);
      assert p in plan.deletes <==> p in multiset(plan.deletes);
      assert p in LocalPaths(local) <==> p in src;
      assert (exists i :: 0 <= i < |remote| && remote[i].path == p) <==> p in dest;
    }
  }

  /** After a plan is applied: in mirror mode the destination has the source's paths and no others; every
      source file compares equal unless append-only protects what was there; nothing the source lacks is
      touched outside mirror mode; and append-only changes no existing file. */
  lemma PlanConverges(plan: Plan, local: seq<TreeEntry>, hashes: seq<Option<string>>, src: Tree, remote: seq<FsEntry>,
                      dest: Tree, mode: SyncMode, compare: Compare, hashed: bool)
    requires Surveyed(local, hashes, src, remote, dest, compare, hashed) && IsPlan(plan, local, remote, mode, compare, hashes)
    ensures forall k :: 0 <= k < |plan.transfers| ==> plan.transfers[k].entry.rel in src
    ensures var after := Applied(plan, dest, src);
      && after.Keys == (if mode == Mirror then src.Keys else dest.Keys + src.Keys)
      && (mode != AppendOnly ==> forall p :: p in src ==> Agree(compare, after[p], src[p]))
      && (mode == OneWay ==> forall p :: p in dest && p !in src ==> after[p] == dest[p])
      && (mode == AppendOnly ==> forall p :: p in after ==> after[p] == if p in dest then dest[p] else src[p])
  {
    hide Surveyed, IsPlan, Sent;
    forall p: string
      ensures p in Sent(plan.transfers) <==> p in src && Stale(p, src, dest, mode, compare)
      ensures p in plan.deletes <==> mode == Mirror && p in dest && p !in src
    {
      SentByPlan(plan, local, hashes, src, remote, dest, mode, compare, hashed, p);
      DeletesAre(plan, local, hashes, src, remote, dest, mode, compare, hashed, p);
    }
    SentByPlan(plan, local, hashes, src, remote, dest, mode, compare, hashed, "");
    WriteIs(plan.transfers, dest, src);
  }

  lemma SentByPlan(plan: Plan, local: seq<TreeEntry>, hashes: seq<Option<string>>, src: Tree, remote: seq<FsEntry>, dest: Tree,
                   mode: SyncMode, compare: Compare, hashed: bool, p: string)
    requires Surveyed(local, hashes, src, remote, dest, compare, hashed) && IsPlan(plan, local, remote, mode, compare, hashes)
    ensures p in Sent(plan.transfers) <==> p in src && Stale(p, src, dest, mode, compare)
    ensures forall k :: 0 <= k < |plan.transfers| ==> plan.transfers[k].entry.rel in src
  {
    SentAre(local, hashes, src, remote, dest, mode, compare, hashed, p);
  }

  /** Planning again from any listing of the result, with the same walk, leaves nothing to do. */
  lemma PlanIsIdempotent(plan: Plan, again: Plan, local: seq<TreeEntry>, hashes: seq<Option<string>>, src: Tree,
                         remote: seq<FsEntry>, remote2: seq<FsEntry>, dest: Tree, mode: SyncMode, compare: Compare, hashed: bool)
    requires Surveyed(local, hashes, src, remote, dest, compare, hashed) && IsPlan(plan, local, remote, mode, compare, hashes)
    requires forall k :: 0 <= k < |plan.transfers| ==> plan.transfers[k].entry.rel in src
    requires Lists(remote2, Applied(plan, dest, src), hashed) && IsPlan(again, local, remote2, mode, compare, hashes)
    ensures again.transfers == [] && again.deletes == []
  {
    PlanConverges(plan, local, hashes, src, remote, dest, mode, compare, hashed);
    var after := Applied(plan, dest, src);
    assert Surveyed(local, hashes, src, remote2, after, compare, hashed);
    hide Surveyed, IsPlan, Lists, Applied;
    if again.transfers != [] {
      var p := again.transfers[0].entry.rel;
      SentByPlan(again, local, hashes, src, remote2, after, mode, compare, hashed, p);
      assert false;
    }
    if again.deletes != [] {
      DeletesAre(again, local, hashes, src, remote2, after, mode, compare, hashed, again.deletes[0]);
      assert false;
    }
  }
}
