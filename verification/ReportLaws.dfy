/**
  What a structural delta reports, in terms of the two files' segments (distil/astdelta.py,
  `structural_delta`): a definition is known by its kind and its name.
*/
module ReportLaws {
  import opened Wrappers
  import opened Counting
  import opened AstDelta

  // ---------------------------------------------------------------- definitions of the old file

  /** Segment j of the file defines something of the kind and name. */
  predicate DefinesAt(segs: seq<Seg>, j: nat, kind: Kind, name: string) {
    j < |segs| && name != "" && segs[j].kind == kind && segs[j].name == name
  }

  predicate DefinesSome(segs: seq<Seg>, kind: Kind, name: string) {
    exists j :: 0 <= j < |segs| && DefinesAt(segs, j, kind, name)
  }

  predicate DefinesLast(segs: seq<Seg>, j: nat, kind: Kind, name: string) {
    DefinesAt(segs, j, kind, name) && forall i :: j < i < |segs| ==> !DefinesAt(segs, i, kind, name)
  }

  /** The last definition of the kind and name has the fingerprint. */
  predicate LastFingerprint(segs: seq<Seg>, kind: Kind, name: string, fp: string) {
    exists j :: 0 <= j < |segs| && DefinesLast(segs, j, kind, name) && segs[j].fp == fp
  }

  lemma LastIs(segs: seq<Seg>, kind: Kind, name: string)
    ensures var j := LastDefinition(segs, |segs|, Key(kind, name));
      (DefinesSome(segs, kind, name) <==> j >= 0) && (j >= 0 ==> DefinesLast(segs, j, kind, name))
  {
    var j := LastDefinition(segs, |segs|, Key(kind, name));
    forall i: nat | i < |segs| ensures DefinesAt(segs, i, kind, name) <==> Defines(segs, i, Key(kind, name)) {
    }
    if j >= 0 {
      assert DefinesAt(segs, j, kind, name);
    }
  }

  lemma LastUnique(segs: seq<Seg>, kind: Kind, name: string, i: nat, j: nat)
    requires DefinesLast(segs, i, kind, name) && DefinesLast(segs, j, kind, name)
    ensures i == j
  {
  }

  lemma NamedIff(segs: seq<Seg>, kind: Kind, name: string)
    ensures var m, k := NamedMap(segs, |segs|), Key(kind, name);
      && (k in m <==> DefinesSome(segs, kind, name))
      && (k in m ==> LastFingerprint(segs, kind, name, m[k]))
      && (forall fp :: LastFingerprint(segs, kind, name, fp) ==> k in m && m[k] == fp)
  {
    var k := Key(kind, name);
    NamedMapAt(segs, |segs|, k);
    LastIs(segs, kind, name);
    var j := LastDefinition(segs, |segs|, k);
    forall fp | LastFingerprint(segs, kind, name, fp) ensures j >= 0 && segs[j].fp == fp {
      var i :| 0 <= i < |segs| && DefinesLast(segs, i, kind, name) && segs[i].fp == fp;
      assert DefinesSome(segs, kind, name);
      LastUnique(segs, kind, name, i, j);
    }
  }

  // ---------------------------------------------------------------- what is reported

  lemma {:induction false} WithFateHas(base: Index, cur: seq<Seg>, n: nat, fate: Fate, s: Seg)
    requires n <= |cur|
    ensures s in WithFate(base, cur, n, fate) <==> exists i :: 0 <= i < n && cur[i] == s && FateOf(base, cur, i) == fate
  {
    if n == 0 {
    } else {
      WithFateHas(base, cur, n - 1, fate, s);
    }
  }

  /** The fate of a definition is that of all its equals. */
  lemma FateOfDefinition(base: seq<Seg>, cur: seq<Seg>, i: nat)
    requires i < |cur| && cur[i].name != ""
    ensures var s, fate := cur[i], FateOf(IndexOf(base), cur, i);
      && (fate == Added <==> !DefinesSome(base, s.kind, s.name))
      && (fate == Unchanged <==> LastFingerprint(base, s.kind, s.name, s.fp))
  {
    NamedIff(base, cur[i].kind, cur[i].name);
  }

  /** For any two files, of the new definitions: reported as added are exactly those whose kind and name
      the old file does not define; as changed those it last defines with another fingerprint. */
  lemma DefinitionsReported(base: seq<Seg>, cur: seq<Seg>, s: Seg)
    requires s.name != ""
    ensures var d := Compared(base, cur);
      && (s in d.added <==> s in cur && !DefinesSome(base, s.kind, s.name))
      && (s in d.changed <==>
            s in cur && DefinesSome(base, s.kind, s.name) && !LastFingerprint(base, s.kind, s.name, s.fp))
  {
    WithFateHas(IndexOf(base), cur, |cur|, Added, s);
    WithFateHas(IndexOf(base), cur, |cur|, Changed, s);
    forall i: nat | i < |cur| && cur[i] == s
      ensures FateOf(IndexOf(base), cur, i) == Added <==> !DefinesSome(base, s.kind, s.name)
      ensures FateOf(IndexOf(base), cur, i) == Unchanged <==> LastFingerprint(base, s.kind, s.name, s.fp)
    {
      FateOfDefinition(base, cur, i);
    }
  }

  /** A bare statement is never reported as changed. */
  lemma BareNeverChanged(base: seq<Seg>, cur: seq<Seg>, s: Seg)
    requires s.name == ""
    ensures s !in Compared(base, cur).changed
  {
    WithFateHas(IndexOf(base), cur, |cur|, Changed, s);
  }

  /** Named as unchanged are exactly the definitions that the old file last has as they are, by kind and
      name; named as removed exactly the old kinds and names that the new file does not define. */
  lemma NamesReported(base: seq<Seg>, cur: seq<Seg>, kind: Kind, name: string)
    ensures var d := Compared(base, cur);
      && (Definition(Key(kind, name)) in d.same <==>
            exists i :: 0 <= i < |cur| && DefinesAt(cur, i, kind, name) && LastFingerprint(base, kind, name, cur[i].fp))
      && (Key(kind, name) in d.removed <==> DefinesSome(base, kind, name) && !DefinesSome(cur, kind, name))
  {
    var same := WithFate(IndexOf(base), cur, |cur|, Unchanged);
    RemovedMembers(base, cur, Key(kind, name));
    NamedIff(base, kind, name);
    NamedIff(cur, kind, name);
    LabelIn(same, kind, name);
    if s :| s in same && s.name == name != "" && s.kind == kind {
      WithFateHas(IndexOf(base), cur, |cur|, Unchanged, s);
      var i :| 0 <= i < |cur| && cur[i] == s && FateOf(IndexOf(base), cur, i) == Unchanged;
      FateOfDefinition(base, cur, i);
      assert DefinesAt(cur, i, kind, name);
    }
    if i :| 0 <= i < |cur| && DefinesAt(cur, i, kind, name) && LastFingerprint(base, kind, name, cur[i].fp) {
      FateOfDefinition(base, cur, i);
      WithFateHas(IndexOf(base), cur, |cur|, Unchanged, cur[i]);
    }
  }

  lemma LabelIn(segs: seq<Seg>, kind: Kind, name: string)
    ensures Definition(Key(kind, name)) in Labels(segs) <==>
            exists s :: s in segs && s.name == name != "" && s.kind == kind
  {
    if Definition(Key(kind, name)) in Labels(segs) {
      var i :| 0 <= i < |segs| && Labels(segs)[i] == Definition(Key(kind, name));
      assert segs[i] in segs;
    }
    if s :| s in segs && s.name == name != "" && s.kind == kind {
      var i :| 0 <= i < |segs| && segs[i] == s;
      assert Labels(segs)[i] == Definition(Key(kind, name));
    }
  }

  // ---------------------------------------------------------------- bare statements

  /** The bare statements with a fingerprint among the first n segments. */
  function BareWith(segs: seq<Seg>, f: string, n: nat): set<nat> {
    Positions((q: nat) => q < |segs| && segs[q].name == "" && segs[q].fp == f, 0, n)
  }

  lemma {:induction false} BareCounts(segs: seq<Seg>, n: nat, f: string)
    requires n <= |segs|
    ensures Bare(segs, n, f) == |BareWith(segs, f, n)|
  {
    if n == 0 {
      assert BareWith(segs, f, 0) == {};
    } else {
      BareCounts(segs, n - 1, f);
      PositionsGrow((q: nat) => q < |segs| && segs[q].name == "" && segs[q].fp == f, 0, n - 1);
    }
  }

  lemma {:induction false} AddedBareCount(base: Index, cur: seq<Seg>, n: nat, f: string)
    requires n <= |cur|
    ensures var new', b := WithFate(base, cur, n, Added), Bare(base.segs, |base.segs|, f);
      Bare(new', |new'|, f) == if Bare(cur, n, f) > b then Bare(cur, n, f) - b else 0
  {
    if n == 0 {
    } else {
      AddedBareCount(base, cur, n - 1, f);
      var new', s := WithFate(base, cur, n - 1, Added), cur[n - 1];
      BareOfPrefix(new', new' + [s], |new'|, f);
    }
  }

  /** Of the bare statements with a fingerprint, as many are reported as added as the new file has more
      of them than the old one. */
  lemma BareReported(base: seq<Seg>, cur: seq<Seg>, f: string)
    ensures var more := Compared(base, cur).added;
      var had, has := |BareWith(base, f, |base|)|, |BareWith(cur, f, |cur|)|;
      |BareWith(more, f, |more|)| == if has > had then has - had else 0
  {
    var more := Compared(base, cur).added;
    AddedBareCount(IndexOf(base), cur, |cur|, f);
    BareCounts(base, |base|, f);
    BareCounts(cur, |cur|, f);
    BareCounts(more, |more|, f);
  }

  // ---------------------------------------------------------------- an instance

  // ---------------------------------------------------------------- in the order of the files

  /** Ascending positions below n. */
  predicate Ascending(at: seq<nat>, n: nat) {
    (forall k :: 0 <= k < |at| ==> at[k] < n) && forall k, l :: 0 <= k < l < |at| ==> at[k] < at[l]
  }

  /** The list is that of the segments at these positions. */
  predicate StandsAt(cur: seq<Seg>, at: seq<nat>, list: seq<Seg>) {
    Ascending(at, |cur|) && |at| == |list| && forall k :: 0 <= k < |at| ==> cur[at[k]] == list[k]
  }

  lemma StandsMore(cur: seq<Seg>, at: seq<nat>, list: seq<Seg>, n: nat, next: seq<Seg>) returns (at': seq<nat>)
    requires StandsAt(cur, at, list) && Ascending(at, n) && n < |cur| && (next == list || next == list + [cur[n]])
    ensures StandsAt(cur, at', next) && Ascending(at', n + 1)
  {
    at' := if next == list then at else at + [n];
  }

  lemma WithFateStep(base: Index, cur: seq<Seg>, n: nat, fate: Fate)
    requires n < |cur|
    ensures var before := WithFate(base, cur, n, fate);
      WithFate(base, cur, n + 1, fate) == if FateOf(base, cur, n) == fate then before + [cur[n]] else before
  {
  }

  lemma {:induction false} FateInOrder(base: Index, cur: seq<Seg>, n: nat, fate: Fate) returns (at: seq<nat>)
    requires n <= |cur|
    ensures StandsAt(cur, at, WithFate(base, cur, n, fate)) && Ascending(at, n)
  {
    at := [];
    if n > 0 {
      at := FateInOrder(base, cur, n - 1, fate);
      WithFateStep(base, cur, n - 1, fate);
      at := StandsMore(cur, at, WithFate(base, cur, n - 1, fate), n - 1, WithFate(base, cur, n, fate));
    }
  }

  /** Definition j is the first of its kind and name, which are these. */
  predicate FirstDefinition(segs: seq<Seg>, j: nat, key: Key) {
    && DefinesAt(segs, j, key.kind, key.name)
    && forall i: nat :: i < j ==> !DefinesAt(segs, i, key.kind, key.name)
  }

  predicate FirstAt(segs: seq<Seg>, at: seq<nat>, keys: seq<Key>) {
    Ascending(at, |segs|) && |at| == |keys| && forall k :: 0 <= k < |at| ==> FirstDefinition(segs, at[k], keys[k])
  }

  lemma FirstMore(segs: seq<Seg>, at: seq<nat>, keys: seq<Key>, n: nat, key: Key)
    requires FirstAt(segs, at, keys) && Ascending(at, n) && n < |segs|
    ensures Ascending(at + [n], n + 1) && Ascending(at, n + 1)
    ensures FirstDefinition(segs, n, key) ==> FirstAt(segs, at + [n], keys + [key])
  {
  }

  lemma {:induction false} KeysFirst(segs: seq<Seg>, n: nat) returns (at: seq<nat>)
    requires n <= |segs|
    ensures FirstAt(segs, at, KeysInOrder(segs, n)) && Ascending(at, n)
  {
    if n == 0 {
      at := [];
    } else {
      at := KeysFirst(segs, n - 1);
      var s := segs[n - 1];
      NewIsFirst(segs, n - 1);
      FirstMore(segs, at, KeysInOrder(segs, n - 1), n - 1, KeyOf(s));
      if Named(s) && KeyOf(s) !in NamedMap(segs, n - 1) {
        at := at + [n - 1];
      }
    }
  }

  lemma NewIsFirst(segs: seq<Seg>, n: nat)
    requires n < |segs|
    ensures Named(segs[n]) && KeyOf(segs[n]) !in NamedMap(segs, n) ==> FirstDefinition(segs, n, KeyOf(segs[n]))
  {
    forall i: nat | i < n && DefinesAt(segs, i, segs[n].kind, segs[n].name)
      ensures KeyOf(segs[n]) in NamedMap(segs, n)
    {
      DefinedIsNamed(segs, n, i);
    }
  }

  lemma {:induction false} DefinedIsNamed(segs: seq<Seg>, n: nat, i: nat)
    requires i < n <= |segs| && Named(segs[i])
    ensures KeyOf(segs[i]) in NamedMap(segs, n)
  {
    if i < n - 1 {
      DefinedIsNamed(segs, n - 1, i);
    }
  }

  lemma {:induction false} MissingInOrder(segs: seq<Seg>, ks: seq<Key>, m: map<Key, string>, n: nat, at: seq<nat>)
    returns (left: seq<nat>)
    requires n <= |ks| && FirstAt(segs, at, ks)
    ensures FirstAt(segs, left, Missing(ks, m, n))
    ensures forall k :: 0 <= k < |left| ==> exists l :: 0 <= l < n && at[l] == left[k]
  {
    if n == 0 {
      left := [];
    } else {
      left := MissingInOrder(segs, ks, m, n - 1, at);
      if ks[n - 1] !in m {
        left := left + [at[n - 1]];
      }
    }
  }

  /** The lists keep the order of the files: changed and added segments stand as in the new file, removed
      names in the order of their first definitions in the old one. */
  lemma ListsInOrder(base: seq<Seg>, cur: seq<Seg>) returns (changed: seq<nat>, added: seq<nat>, removed: seq<nat>)
    ensures var d := Compared(base, cur);
      StandsAt(cur, changed, d.changed) && StandsAt(cur, added, d.added) && FirstAt(base, removed, d.removed)
  {
    changed := FateInOrder(IndexOf(base), cur, |cur|, Changed);
    added := FateInOrder(IndexOf(base), cur, |cur|, Added);
    var ks := KeysInOrder(base, |base|);
    var at := KeysFirst(base, |base|);
    removed := MissingInOrder(base, ks, NamedMap(cur, |cur|), |ks|, at);
  }

  /** A function replaced by a class of the same name: one is added and the other removed. */
  lemma FunctionBecomesClass(old': string, cur: string, f: string, g: string)
    ensures Compared([Seg(DefKind, "Foo", old', f)], [Seg(ClassKind, "Foo", cur, g)]) ==
            Delta([], [], [Seg(ClassKind, "Foo", cur, g)], [Key(DefKind, "Foo")])
  {
    var before, after := [Seg(DefKind, "Foo", old', f)], [Seg(ClassKind, "Foo", cur, g)];
    assert NamedMap(before, 0) == map[] && NamedMap(after, 0) == map[];
    assert KeysInOrder(before, 0) == [] && KeysInOrder(before, 1) == [Key(DefKind, "Foo")];
    var b := IndexOf(before);
    assert FateOf(b, after, 0) == Added;
    assert WithFate(b, after, 0, Added) == WithFate(b, after, 0, Changed) == WithFate(b, after, 0, Unchanged) == [];
    assert Missing([Key(DefKind, "Foo")], NamedMap(after, 1), 0) == [];
  }
}
