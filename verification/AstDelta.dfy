/**
  The structural delta between two versions of a parsed file (distil/astdelta.py,
  `structural_delta`).  Parsing and fingerprinting are given: a file is the sequence of its
  top-level segments.
*/
module AstDelta {
  import opened Wrappers

  datatype Kind = DefKind | ClassKind | StmtKind

  /** One top-level segment; a bare statement has the empty name. */
  datatype Seg = Seg(kind: Kind, name: string, source: string, fp: string)

  datatype Key = Key(kind: Kind, name: string)

  datatype Label = Definition(key: Key) | ModuleStatement

  datatype Delta = Delta(same: seq<Label>, changed: seq<Seg>, added: seq<Seg>, removed: seq<Key>)

  datatype Fate = Unchanged | Changed | Added

  predicate Named(s: Seg) {
    s.name != ""
  }

  function KeyOf(s: Seg): Key {
    Key(s.kind, s.name)
  }

  /** Fingerprint of the last of the first n segments that defines each name. */
  function NamedMap(segs: seq<Seg>, n: nat): map<Key, string>
    requires n <= |segs|
  {
    if n == 0 then map[]
    else
      var s, m := segs[n - 1], NamedMap(segs, n - 1);
      if Named(s) then m[KeyOf(s) := s.fp] else m
  }

  /** How many of the first n segments are bare statements with fingerprint f. */
  function Bare(segs: seq<Seg>, n: nat, f: string): nat
    requires n <= |segs|
  {
    if n == 0 then 0
    else Bare(segs, n - 1, f) + if !Named(segs[n - 1]) && segs[n - 1].fp == f then 1 else 0
  }

  /** The names defined by the first n segments, in order of their first definition. */
  function KeysInOrder(segs: seq<Seg>, n: nat): seq<Key>
    requires n <= |segs|
  {
    if n == 0 then []
    else
      var s, ks := segs[n - 1], KeysInOrder(segs, n - 1);
      if Named(s) && KeyOf(s) !in NamedMap(segs, n - 1) then ks + [KeyOf(s)] else ks
  }

  function Missing(ks: seq<Key>, m: map<Key, string>, n: nat): seq<Key>
    requires n <= |ks|
  {
    if n == 0 then []
    else
      var r := Missing(ks, m, n - 1);
      if ks[n - 1] in m then r else r + [ks[n - 1]]
  }

  // ---------------------------------------------------------------- what the comparison means

  /** What the new file is compared with: the old definitions by name, and the old segments. */
  datatype Index = Index(named: map<Key, string>, segs: seq<Seg>)

  function IndexOf(base: seq<Seg>): Index {
    Index(NamedMap(base, |base|), base)
  }

  /** A definition is compared with the old one of its name; the n-th bare statement with a given
      fingerprint is unchanged iff the old file has at least n of them. */
  function FateOf(base: Index, cur: seq<Seg>, i: nat): Fate
    requires i < |cur|
  {
    var s := cur[i];
    if Named(s) then
      if KeyOf(s) !in base.named then Added
      else if base.named[KeyOf(s)] == s.fp then Unchanged
      else Changed
    else if Bare(cur, i, s.fp) < Bare(base.segs, |base.segs|, s.fp) then Unchanged
    else Added
  }

  /** The segments among the first n of the new file with the given fate, in file order. */
  function WithFate(base: Index, cur: seq<Seg>, n: nat, fate: Fate): seq<Seg>
    requires n <= |cur|
  {
    if n == 0 then []
    else
      var w := WithFate(base, cur, n - 1, fate);
      if FateOf(base, cur, n - 1) == fate then w + [cur[n - 1]] else w
  }

  function LabelOf(s: Seg): Label {
    if Named(s) then Definition(KeyOf(s)) else ModuleStatement
  }

  function Labels(segs: seq<Seg>): seq<Label> {
    seq(|segs|, i requires 0 <= i < |segs| => LabelOf(segs[i]))
  }

  function Removed(base: seq<Seg>, cur: seq<Seg>): seq<Key> {
    var ks := KeysInOrder(base, |base|);
    Missing(ks, NamedMap(cur, |cur|), |ks|)
  }

  function Compared(base: seq<Seg>, cur: seq<Seg>): Delta {
    var index := IndexOf(base);
    Delta(Labels(WithFate(index, cur, |cur|, Unchanged)),
          WithFate(index, cur, |cur|, Changed),
          WithFate(index, cur, |cur|, Added),
          Removed(base, cur))
  }

  // ---------------------------------------------------------------- the counting loop

  function Left(used: map<string, nat>, f: string): nat {
    if f in used then used[f] else 0
  }

  method CountBare(segs: seq<Seg>) returns (counts: map<string, nat>)
    ensures forall f :: Left(counts, f) == Bare(segs, |segs|, f)
  {
    counts := map[];
    for i := 0 to |segs|
      invariant forall f :: Left(counts, f) == Bare(segs, i, f)
    {
      var s := segs[i];
      if !Named(s) {
        counts := counts[s.fp := Left(counts, s.fp) + 1];
      }
    }
  }

  /** What is left of each fingerprint's count once the first i new segments are matched off. */
  ghost predicate Remaining(used: map<string, nat>, base: seq<Seg>, cur: seq<Seg>, i: nat)
    requires i <= |cur|
  {
    forall f :: Left(used, f) == Monus(Bare(base, |base|, f), Bare(cur, i, f))
  }

  function Monus(a: nat, b: nat): nat {
    if a < b then 0 else a - b
  }

  method Compare(base: seq<Seg>, cur: seq<Seg>) returns (d: Delta)
    ensures d == Compared(base, cur)
  {
    var named := NamedMap(base, |base|);
    var used := CountBare(base);
    ghost var index := IndexOf(base);
    assert Remaining(used, base, cur, 0);
    var same, changed, added := [], [], [];
    for i := 0 to |cur|
      invariant same == Labels(WithFate(index, cur, i, Unchanged))
      invariant changed == WithFate(index, cur, i, Changed)
      invariant added == WithFate(index, cur, i, Added)
      invariant Remaining(used, base, cur, i)
    {
      var s := cur[i];
      if Named(s) {
        if KeyOf(s) !in named {
          added := added + [s];
        } else if named[KeyOf(s)] == s.fp {
          same := same + [LabelOf(s)];
        } else {
          changed := changed + [s];
        }
      } else if Left(used, s.fp) > 0 {
        used := used[s.fp := used[s.fp] - 1];
        same := same + [ModuleStatement];
      } else {
        added := added + [s];
      }
    }
    d := Delta(same, changed, added, Removed(base, cur));
  }

  /** An answer exactly when both files parse and the marker is shorter than the new text; then it
      says of every new segment what became of it, and which old names are gone. */
  method StructuralDelta(base: Option<seq<Seg>>, cur: Option<seq<Seg>>, length: Delta -> nat, newLength: nat)
    returns (d: Option<Delta>)
    ensures d.Some? <==> base.Some? && cur.Some? && length(Compared(base.value, cur.value)) < newLength
    ensures d.Some? ==> d.value == Compared(base.value, cur.value) && Accounts(base.value, cur.value, d.value)
  {
    if base.None? || cur.None? {
      return None;
    }
    var delta := Compare(base.value, cur.value);
    ComparedAccounts(base.value, cur.value);
    d := if length(delta) < newLength then Some(delta) else None;
  }

  function Structural(base: Option<seq<Seg>>, cur: Option<seq<Seg>>, length: Delta -> nat, newLength: nat)
    : Option<Delta>
  {
    if base.None? || cur.None? then None
    else
      var delta := Compared(base.value, cur.value);
      if length(delta) < newLength then Some(delta) else None
  }

  // ---------------------------------------------------------------- accounting

  /** Every new segment is reported once, as unchanged, changed or added, and the names reported
      removed are the old ones the new file does not define. */
  ghost predicate Accounts(base: seq<Seg>, cur: seq<Seg>, d: Delta) {
    && (exists same :: d.same == Labels(same) && Partition(same, d.changed, d.added, cur))
    && forall k :: k in d.removed <==> k in NamedMap(base, |base|) && k !in NamedMap(cur, |cur|)
  }

  lemma ComparedAccounts(base: seq<Seg>, cur: seq<Seg>)
    ensures Accounts(base, cur, Compared(base, cur))
  {
    var d, same := Compared(base, cur), WithFate(IndexOf(base), cur, |cur|, Unchanged);
    FatesPartition(IndexOf(base), cur, |cur|);
    assert cur[..|cur|] == cur;
    assert d.same == Labels(same) && Partition(same, d.changed, d.added, cur);
    forall k ensures k in d.removed <==> k in NamedMap(base, |base|) && k !in NamedMap(cur, |cur|) {
      RemovedMembers(base, cur, k);
    }
  }

  /** Three lists hold together, as a multiset, what one list holds. */
  predicate Partition(a: seq<Seg>, b: seq<Seg>, c: seq<Seg>, all: seq<Seg>) {
    multiset(a) + multiset(b) + multiset(c) == multiset(all) && |a| + |b| + |c| == |all|
  }

  lemma PartitionGrows(a: seq<Seg>, b: seq<Seg>, c: seq<Seg>, all: seq<Seg>, x: Seg)
    requires Partition(a, b, c, all)
    ensures Partition(a + [x], b, c, all + [x])
    ensures Partition(a, b + [x], c, all + [x])
    ensures Partition(a, b, c + [x], all + [x])
  {
  }

  lemma {:induction false} FatesPartition(base: Index, cur: seq<Seg>, n: nat)
    requires n <= |cur|
    ensures Partition(WithFate(base, cur, n, Unchanged), WithFate(base, cur, n, Changed),
                      WithFate(base, cur, n, Added), cur[..n])
  {
    if n == 0 {
      assert cur[..n] == [];
    } else {
      FatesPartition(base, cur, n - 1);
      assert cur[..n] == cur[..n - 1] + [cur[n - 1]];
      PartitionGrows(WithFate(base, cur, n - 1, Unchanged), WithFate(base, cur, n - 1, Changed),
                     WithFate(base, cur, n - 1, Added), cur[..n - 1], cur[n - 1]);
      match FateOf(base, cur, n - 1)
      case Unchanged =>
      case Changed =>
      case Added =>
    }
  }

  lemma {:induction false} BareOfPrefix(a: seq<Seg>, b: seq<Seg>, n: nat, f: string)
    requires n <= |a| && a <= b
    ensures Bare(a, n, f) == Bare(b, n, f)
  {
    if n == 0 {
    } else {
      BareOfPrefix(a, b, n - 1, f);
    }
  }

  lemma {:induction false} UnchangedBareCount(base: Index, cur: seq<Seg>, n: nat, f: string)
    requires n <= |cur|
    ensures var kept, b := WithFate(base, cur, n, Unchanged), Bare(base.segs, |base.segs|, f);
      Bare(kept, |kept|, f) == if Bare(cur, n, f) < b then Bare(cur, n, f) else b
  {
    if n == 0 {
    } else {
      UnchangedBareCount(base, cur, n - 1, f);
      var kept, s := WithFate(base, cur, n - 1, Unchanged), cur[n - 1];
      BareOfPrefix(kept, kept + [s], |kept|, f);
    }
  }

  /** Nothing is lost: each new segment is reported exactly once, and the bare statements reported
      unchanged are the multiset intersection of the two files' bare statements, in whatever order. */
  lemma DeltaAccountsForEverything(base: seq<Seg>, cur: seq<Seg>)
    ensures var d, same := Compared(base, cur), WithFate(IndexOf(base), cur, |cur|, Unchanged);
      && |d.same| + |d.changed| + |d.added| == |cur|
      && d.same == Labels(same)
      && multiset(same) + multiset(d.changed) + multiset(d.added) == multiset(cur)
      && forall f :: var b, c := Bare(base, |base|, f), Bare(cur, |cur|, f);
           Bare(same, |same|, f) == if c < b then c else b
  {
    assert cur[..|cur|] == cur;
    FatesPartition(IndexOf(base), cur, |cur|);
    forall f {
      UnchangedBareCount(IndexOf(base), cur, |cur|, f);
    }
  }

  // ---------------------------------------------------------------- rebuilding the new definitions

  predicate Defines(segs: seq<Seg>, i: nat, k: Key)
    requires i < |segs|
  {
    Named(segs[i]) && KeyOf(segs[i]) == k
  }

  /** Index of the last of the first n segments that defines k; -1 when none does. */
  function LastDefinition(segs: seq<Seg>, n: nat, k: Key): (j: int)
    requires n <= |segs|
    ensures -1 <= j < n
    ensures j >= 0 ==> Defines(segs, j, k)
    ensures forall i :: j < i < n ==> !Defines(segs, i, k)
  {
    if n == 0 then -1
    else if Defines(segs, n - 1, k) then n - 1
    else LastDefinition(segs, n - 1, k)
  }

  lemma {:induction false} NamedMapAt(segs: seq<Seg>, n: nat, k: Key)
    requires n <= |segs|
    ensures k in NamedMap(segs, n) <==> LastDefinition(segs, n, k) >= 0
    ensures k in NamedMap(segs, n) ==> NamedMap(segs, n)[k] == segs[LastDefinition(segs, n, k)].fp
  {
    if n == 0 {
    } else {
      NamedMapAt(segs, n - 1, k);
    }
  }

  lemma {:induction false} NamedMapOfPrefix(a: seq<Seg>, b: seq<Seg>, n: nat)
    requires n <= |a| && a <= b
    ensures NamedMap(a, n) == NamedMap(b, n)
  {
    if n == 0 {
    } else {
      NamedMapOfPrefix(a, b, n - 1);
    }
  }

  function ReportedMap(base: Index, cur: seq<Seg>, n: nat, fate: Fate): map<Key, string>
    requires n <= |cur|
  {
    var w := WithFate(base, cur, n, fate);
    NamedMap(w, |w|)
  }

  lemma ReportedMapStep(base: Index, cur: seq<Seg>, n: nat, fate: Fate)
    requires n < |cur|
    ensures ReportedMap(base, cur, n + 1, fate) ==
      if FateOf(base, cur, n) == fate && Named(cur[n])
      then ReportedMap(base, cur, n, fate)[KeyOf(cur[n]) := cur[n].fp]
      else ReportedMap(base, cur, n, fate)
  {
    var w := WithFate(base, cur, n, fate);
    NamedMapOfPrefix(w, w + [cur[n]], |w|);
  }

  /** A name the old file lacks: the added segments carry its last definition. */
  lemma {:induction false} AddedName(base: Index, cur: seq<Seg>, n: nat, k: Key)
    requires n <= |cur| && k !in base.named
    ensures var r, m := ReportedMap(base, cur, n, Added), NamedMap(cur, n);
      (k in r <==> k in m) && (k in m ==> r[k] == m[k])
  {
    if n == 0 {
    } else {
      AddedName(base, cur, n - 1, k);
      ReportedMapStep(base, cur, n - 1, Added);
    }
  }

  lemma {:induction false} AddedOnlyNew(base: Index, cur: seq<Seg>, n: nat, k: Key)
    requires n <= |cur| && k in base.named
    ensures k !in ReportedMap(base, cur, n, Added)
  {
    if n == 0 {
    } else {
      AddedOnlyNew(base, cur, n - 1, k);
      ReportedMapStep(base, cur, n - 1, Added);
    }
  }

  /** Some definition of k among the first n segments differs from the old one. */
  predicate EverChanged(base: Index, cur: seq<Seg>, n: nat, k: Key)
    requires n <= |cur|
  {
    exists i :: 0 <= i < n && Defines(cur, i, k) && FateOf(base, cur, i) == Changed
  }

  /** A name the old file has: what the changed segments say about it. */
  lemma {:induction false} ChangedName(base: Index, cur: seq<Seg>, n: nat, k: Key)
    requires n <= |cur|
    ensures var r, j := ReportedMap(base, cur, n, Changed), LastDefinition(cur, n, k);
      && (k in r <==> EverChanged(base, cur, n, k))
      && (k in r ==> k in base.named && r[k] != base.named[k])
      && (j >= 0 && FateOf(base, cur, j) == Changed ==> k in r && r[k] == cur[j].fp)
  {
    if n == 0 {
    } else {
      ChangedName(base, cur, n - 1, k);
      ReportedMapStep(base, cur, n - 1, Changed);
      assert EverChanged(base, cur, n, k) <==>
        EverChanged(base, cur, n - 1, k) || (Defines(cur, n - 1, k) && FateOf(base, cur, n - 1) == Changed);
    }
  }

  /** What a reader of the delta believes the definitions are. */
  function Rebuilt(base: seq<Seg>, d: Delta): map<Key, string> {
    var gone := set k | k in d.removed;
    (NamedMap(base, |base|) - gone) + NamedMap(d.changed, |d.changed|) + NamedMap(d.added, |d.added|)
  }

  /** Name k is somewhere defined differently from the old file but, in its last definition, as in it. */
  predicate Reverts(base: Index, cur: seq<Seg>, k: Key) {
    var j := LastDefinition(cur, |cur|, k);
    j >= 0 && FateOf(base, cur, j) == Unchanged && EverChanged(base, cur, j, k)
  }

  lemma {:induction false} KeysInOrderMembers(segs: seq<Seg>, n: nat, k: Key)
    requires n <= |segs|
    ensures k in KeysInOrder(segs, n) <==> k in NamedMap(segs, n)
  {
    if n == 0 {
    } else {
      KeysInOrderMembers(segs, n - 1, k);
    }
  }

  lemma {:induction false} MissingMembers(ks: seq<Key>, m: map<Key, string>, n: nat, k: Key)
    requires n <= |ks|
    ensures k in Missing(ks, m, n) <==> k in ks[..n] && k !in m
  {
    if n == 0 {
    } else {
      MissingMembers(ks, m, n - 1, k);
      assert ks[..n] == ks[..n - 1] + [ks[n - 1]];
    }
  }

  /** The names reported removed are the old names the new file does not define. */
  lemma RemovedMembers(base: seq<Seg>, cur: seq<Seg>, k: Key)
    ensures k in Removed(base, cur) <==> k in NamedMap(base, |base|) && k !in NamedMap(cur, |cur|)
  {
    var ks := KeysInOrder(base, |base|);
    KeysInOrderMembers(base, |base|, k);
    MissingMembers(ks, NamedMap(cur, |cur|), |ks|, k);
    assert ks[..|ks|] == ks;
  }

  lemma RebuiltAt(base: seq<Seg>, cur: seq<Seg>, k: Key)
    ensures var r, m := Rebuilt(base, Compared(base, cur)), NamedMap(cur, |cur|);
      && (k in r <==> k in m)
      && (k in m ==> (r[k] == m[k] <==> !Reverts(IndexOf(base), cur, k)))
  {
    var b, n := IndexOf(base), |cur|;
    RemovedMembers(base, cur, k);
    NamedMapAt(cur, n, k);
    ChangedName(b, cur, n, k);
    if k in b.named {
      AddedOnlyNew(b, cur, n, k);
      if k in NamedMap(cur, n) {
        KnownNameReverts(b, cur, k);
      }
    } else {
      AddedName(b, cur, n, k);
    }
  }

  /** An old name keeps its old fingerprint at the end of the new file, yet is reported changed,
      exactly when it reverts. */
  lemma KnownNameReverts(base: Index, cur: seq<Seg>, k: Key)
    requires k in base.named && k in NamedMap(cur, |cur|)
    ensures var r, m := ReportedMap(base, cur, |cur|, Changed), NamedMap(cur, |cur|);
      m[k] != (if k in r then r[k] else base.named[k]) <==> Reverts(base, cur, k)
  {
    NamedMapAt(cur, |cur|, k);
    ChangedName(base, cur, |cur|, k);
    var j := LastDefinition(cur, |cur|, k);
    if FateOf(base, cur, j) == Unchanged {
      assert EverChanged(base, cur, |cur|, k) ==> EverChanged(base, cur, j, k);
    }
  }

  /** Old definitions plus the delta rebuild the new name-to-fingerprint map exactly when no name is
      redefined and then reverted inside the new file. */
  lemma RebuildsIff(base: seq<Seg>, cur: seq<Seg>)
    ensures Rebuilt(base, Compared(base, cur)) == NamedMap(cur, |cur|) <==>
            forall k :: !Reverts(IndexOf(base), cur, k)
  {
    var r, m := Rebuilt(base, Compared(base, cur)), NamedMap(cur, |cur|);
    forall k ensures k in r <==> k in m {
      RebuiltAt(base, cur, k);
    }
    forall k | k in m ensures r[k] == m[k] <==> !Reverts(IndexOf(base), cur, k) {
      RebuiltAt(base, cur, k);
    }
    forall k | Reverts(IndexOf(base), cur, k) ensures k in m {
      NamedMapAt(cur, |cur|, k);
    }
  }

  /** In particular a file whose definitions have distinct names is always rebuilt. */
  lemma UniqueNamesRebuild(base: seq<Seg>, cur: seq<Seg>)
    requires forall i, j :: 0 <= i < j < |cur| && Named(cur[i]) && Named(cur[j]) ==> KeyOf(cur[i]) != KeyOf(cur[j])
    ensures Rebuilt(base, Compared(base, cur)) == NamedMap(cur, |cur|)
  {
    RebuildsIff(base, cur);
  }

  // ---------------------------------------------------------------- the formatting-only answer

  predicate FormattingOnly(d: Delta) {
    d.changed == [] && d.added == [] && d.removed == []
  }

  lemma {:induction false} NoneWithFate(base: Index, cur: seq<Seg>, n: nat, fate: Fate)
    requires n <= |cur|
    ensures WithFate(base, cur, n, fate) == [] <==> forall i :: 0 <= i < n ==> FateOf(base, cur, i) != fate
  {
    if n == 0 {
    } else {
      NoneWithFate(base, cur, n - 1, fate);
    }
  }

  lemma {:induction false} BareGrows(segs: seq<Seg>, i: nat, n: nat, f: string)
    requires i <= n <= |segs|
    ensures Bare(segs, i, f) <= Bare(segs, n, f)
    ensures i < n && !Named(segs[i]) && segs[i].fp == f ==> Bare(segs, i, f) < Bare(segs, n, f)
  {
    if i == n {
    } else {
      BareGrows(segs, i, n - 1, f);
    }
  }

  lemma {:induction false} BareWithin(base: Index, cur: seq<Seg>, n: nat, f: string)
    requires n <= |cur|
    requires forall i :: 0 <= i < n ==> FateOf(base, cur, i) == Unchanged
    ensures Bare(cur, n, f) <= Bare(base.segs, |base.segs|, f)
  {
    if n == 0 {
    } else {
      BareWithin(base, cur, n - 1, f);
      assert FateOf(base, cur, n - 1) == Unchanged;
    }
  }

  predicate DefinitionsAgree(base: Index, cur: seq<Seg>) {
    forall i :: 0 <= i < |cur| && Named(cur[i]) ==>
      KeyOf(cur[i]) in base.named && base.named[KeyOf(cur[i])] == cur[i].fp
  }

  ghost predicate BareIncluded(base: Index, cur: seq<Seg>) {
    forall f :: Bare(cur, |cur|, f) <= Bare(base.segs, |base.segs|, f)
  }

  lemma AllUnchangedIff(base: Index, cur: seq<Seg>)
    ensures (forall i :: 0 <= i < |cur| ==> FateOf(base, cur, i) == Unchanged) <==>
            DefinitionsAgree(base, cur) && BareIncluded(base, cur)
  {
    if forall i :: 0 <= i < |cur| ==> FateOf(base, cur, i) == Unchanged {
      forall i | 0 <= i < |cur| && Named(cur[i])
        ensures KeyOf(cur[i]) in base.named && base.named[KeyOf(cur[i])] == cur[i].fp
      {
        assert FateOf(base, cur, i) == Unchanged;
      }
      forall f ensures Bare(cur, |cur|, f) <= Bare(base.segs, |base.segs|, f) {
        BareWithin(base, cur, |cur|, f);
      }
    }
    if DefinitionsAgree(base, cur) && BareIncluded(base, cur) {
      forall i | 0 <= i < |cur| ensures FateOf(base, cur, i) == Unchanged {
        BareGrows(cur, i, |cur|, cur[i].fp);
      }
    }
  }

  lemma NothingRemovedIff(base: seq<Seg>, cur: seq<Seg>)
    ensures Removed(base, cur) == [] <==>
            forall k :: k in NamedMap(base, |base|) ==> k in NamedMap(cur, |cur|)
  {
    var r := Removed(base, cur);
    if r != [] {
      RemovedMembers(base, cur, r[0]);
    } else {
      forall k | k in NamedMap(base, |base|) ensures k in NamedMap(cur, |cur|) {
        RemovedMembers(base, cur, k);
      }
    }
  }

  lemma NothingReportedIff(base: Index, cur: seq<Seg>)
    ensures WithFate(base, cur, |cur|, Changed) == [] && WithFate(base, cur, |cur|, Added) == [] <==>
            forall i :: 0 <= i < |cur| ==> FateOf(base, cur, i) == Unchanged
  {
    NoneWithFate(base, cur, |cur|, Changed);
    NoneWithFate(base, cur, |cur|, Added);
  }

  /** The "only formatting changed" answer means exactly: both files define the same names, every
      definition in the new file has the old fingerprint, and the new bare statements are included in
      the old ones.  Inclusion, not equality: deleted bare statements go unreported. */
  lemma FormattingOnlyIff(base: seq<Seg>, cur: seq<Seg>)
    ensures FormattingOnly(Compared(base, cur)) <==>
      && DefinitionsAgree(IndexOf(base), cur)
      && BareIncluded(IndexOf(base), cur)
      && (forall k :: k in NamedMap(base, |base|) ==> k in NamedMap(cur, |cur|))
  {
    NothingReportedIff(IndexOf(base), cur);
    AllUnchangedIff(IndexOf(base), cur);
    NothingRemovedIff(base, cur);
  }

  /** A file whose only import was deleted is announced as a formatting-only change. */
  lemma DeletedImportReadsAsFormatting(source: string, fp: string)
    ensures FormattingOnly(Compared([Seg(StmtKind, "", source, fp)], []))
  {
    assert KeysInOrder([Seg(StmtKind, "", source, fp)], 1) == KeysInOrder([Seg(StmtKind, "", source, fp)], 0);
  }
}
