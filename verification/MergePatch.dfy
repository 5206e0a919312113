/** JSON merge patches (RFC 7396): how a difference is computed from two documents and applied to a third. */
module MergePatch {
  import opened Common

  /** JSON documents over member names `K`. Lists are values: a patch replaces them whole. */
  datatype Tree<!K> = Null | Bool(b: bool) | Num(n: int) | Str(s: string) | List(items: seq<Tree<K>>)
                    | Object(members: map<K, Tree<K>>)

  /** `MergePatch` of section 2. */
  function Merge<K>(target: Tree<K>, patch: Tree<K>): Tree<K>
    decreases patch
  {
    if !patch.Object? then patch
    else
      var held := if target.Object? then target.members else map[];
      Object(map k | k in held.Keys + patch.members.Keys && (k in patch.members ==> !patch.members[k].Null?) ::
               if k in patch.members then Merge(if k in held then held[k] else Null, patch.members[k]) else held[k])
  }

  /** The members of the patch from `a` to `b`: new and changed members, `null` for removed ones. */
  function Diff<K>(a: Tree<K>, b: Tree<K>): map<K, Tree<K>>
    requires a.Object? && b.Object?
    decreases a
  {
    map k | k in a.members.Keys + b.members.Keys && Change(a, b, k).Some? :: Change(a, b, k).value
  }

  function Change<K>(a: Tree<K>, b: Tree<K>, k: K): Option<Tree<K>>
    requires a.Object? && b.Object? && k in a.members.Keys + b.members.Keys
    decreases a, 0
  {
    if k !in b.members then Some(Null)
    else if k !in a.members then Some(b.members[k])
    else if a.members[k].Object? && b.members[k].Object? then
      var d := Diff(a.members[k], b.members[k]);
      if d == map[] then None else Some(Object(d))
    else if a.members[k] == b.members[k] then None
    else Some(b.members[k])
  }

  function CreatePatch<K>(a: Tree<K>, b: Tree<K>): (patch: Tree<K>)
    requires a.Object? && b.Object?
    ensures patch.Object?
  {
    Object(Diff(a, b))
  }

  /** The member `k` of an object, or `Null`. */
  function Member<K>(t: Tree<K>, k: K): Tree<K>
  {
    if t.Object? && k in t.members then t.members[k] else Null
  }

  lemma MergedMember<K>(target: Tree<K>, patch: Tree<K>, k: K)
    requires patch.Object?
    ensures var m := Merge(target, patch).members;
            && (k in patch.members && patch.members[k].Null? ==> k !in m)
            && (k in patch.members && !patch.members[k].Null? ==>
                  k in m && m[k] == Merge(Member(target, k), patch.members[k]))
            && (k !in patch.members ==>
                  (k in m <==> target.Object? && k in target.members) && (k in m ==> m[k] == target.members[k]))
  {
    var held := if target.Object? then target.members else map[];
    assert k in held.Keys + patch.members.Keys <==> k in held || k in patch.members;
  }

  lemma DiffMember<K>(a: Tree<K>, b: Tree<K>, k: K)
    requires a.Object? && b.Object?
    ensures k in Diff(a, b) <==> (k in a.members || k in b.members) && Change(a, b, k).Some?
    ensures k in Diff(a, b) ==> Diff(a, b)[k] == Change(a, b, k).value
  {
    assert k in a.members.Keys + b.members.Keys <==> k in a.members || k in b.members;
  }

  lemma PatchedMember<K>(s: Tree<K>, a: Tree<K>, b: Tree<K>, k: K)
    requires a.Object? && b.Object?
    ensures var m := Merge(s, CreatePatch(a, b)).members;
            var change := if k in a.members || k in b.members then Change(a, b, k) else None;
            && (change.None? ==> (k in m <==> s.Object? && k in s.members) && (k in m ==> m[k] == s.members[k]))
            && (change == Some(Null) ==> k !in m)
            && (change.Some? && change.value != Null ==> k in m && m[k] == Merge(Member(s, k), change.value))
  {
    DiffMember(a, b, k);
    MergedMember(s, CreatePatch(a, b), k);
  }

  lemma SameMembers<K>(m: map<K, Tree<K>>, n: map<K, Tree<K>>)
    requires forall k | k in m.Keys + n.Keys :: k in m && k in n && m[k] == n[k]
    ensures m == n
  {
  }

  lemma MergeIsObject<K>(target: Tree<K>, patch: Tree<K>)
    requires patch.Object?
    ensures Merge(target, patch).Object?
  {
  }

  // ---------- the patch of two documents does what it is for ----------

  /** No object member is `null`; what Go marshals with `omitempty` has none. */
  ghost predicate NullFree<K>(t: Tree<K>)
  {
    !t.Null? && (t.Object? ==> forall k <- t.members :: NullFree(t.members[k]))
  }

  lemma {:induction false} NothingChanged<K>(a: Tree<K>, b: Tree<K>)
    requires a.Object? && b.Object?
    ensures Diff(a, b) == map[] <==> a == b
    decreases a
  {
    hide Diff;
    forall k | k in a.members || k in b.members
      ensures k in Diff(a, b) <==> !(k in a.members && k in b.members && a.members[k] == b.members[k])
    {
      DiffMember(a, b, k);
      if k in a.members && k in b.members && a.members[k].Object? && b.members[k].Object? {
        NothingChanged(a.members[k], b.members[k]);
      }
    }
    if Diff(a, b) == map[] {
      assert a.members == b.members;
    } else if a == b {
      var k :| k in Diff(a, b);
      DiffMember(a, b, k);
    }
  }

  lemma {:induction false} MergeFresh<K>(b: Tree<K>)
    requires NullFree(b)
    ensures Merge(Null, b) == b
    decreases b
  {
    hide Merge;
    if b.Object? {
      MergeIsObject(Null, b);
      var merged := Merge(Null, b).members;
      forall k | k in merged.Keys + b.members.Keys
        ensures k in b.members && k in merged && merged[k] == b.members[k]
      {
        MergedMember(Null, b, k);
        if k in b.members {
          MergeFresh(b.members[k]);
        }
      }
      SameMembers(merged, b.members);
    } else {
      MergeValue(Null, b);
    }
  }

  lemma MergeValue<K>(target: Tree<K>, patch: Tree<K>)
    requires !patch.Object?
    ensures Merge(target, patch) == patch
  {
  }

  /** The patch takes the document it was computed from to the document it was computed for. */
  lemma {:induction false} PatchReaches<K>(a: Tree<K>, b: Tree<K>)
    requires a.Object? && b.Object? && NullFree(b)
    ensures Merge(a, CreatePatch(a, b)) == b
    decreases a
  {
    hide Merge, Diff;
    MergeIsObject(a, CreatePatch(a, b));
    var merged := Merge(a, CreatePatch(a, b)).members;
    forall k | k in merged.Keys + b.members.Keys
      ensures k in b.members && k in merged && merged[k] == b.members[k]
    {
      PatchedMember(a, a, b, k);
      if k in b.members && k in a.members && a.members[k].Object? && b.members[k].Object? {
        PatchReaches(a.members[k], b.members[k]);
        NothingChanged(a.members[k], b.members[k]);
      } else if k in b.members && k !in a.members {
        MergeFresh(b.members[k]);
      } else if k in b.members {
        ReplacedWhole(a.members[k], b.members[k]);
      }
    }
    SameMembers(merged, b.members);
  }

  /** A new value that does not meet an object is taken over as it is. */
  lemma ReplacedWhole<K>(held: Tree<K>, v: Tree<K>)
    requires NullFree(v) && !(held.Object? && v.Object?)
    ensures Merge(held, v) == v
  {
    if v.Object? {
      MergeFresh(v);
    }
  }

  // ---------- and leaves the rest of a third document alone ----------

  function Lookup<K>(t: Tree<K>, path: seq<K>): Option<Tree<K>>
    decreases |path|
  {
    if path == [] then Some(t)
    else if t.Object? && path[0] in t.members then Lookup(t.members[path[0]], path[1..])
    else None
  }

  /** Two documents have the same value at the end of the path, or part ways before it in the same manner. */
  predicate SameAlong<K(==)>(a: Tree<K>, b: Tree<K>, path: seq<K>)
    requires a.Object? && b.Object? && path != []
    decreases |path|
  {
    var k := path[0];
    && (k in a.members <==> k in b.members)
    && (k in a.members ==>
          var x, y := a.members[k], b.members[k];
          x == y || (|path| > 1 && x.Object? && y.Object? && SameAlong(x, y, path[1..])))
  }

  lemma LookupBelow<K>(t: Tree<K>, path: seq<K>)
    requires path != [] && |path| > 1
    ensures Lookup(t, path) == Lookup(Member(t, path[0]), path[1..])
  {
  }

  /** Where the two documents agree, a third one keeps its value under their patch. */
  lemma {:induction false} PatchKeeps<K>(s: Tree<K>, a: Tree<K>, b: Tree<K>, path: seq<K>)
    requires a.Object? && b.Object? && path != [] && SameAlong(a, b, path)
    ensures Lookup(Merge(s, CreatePatch(a, b)), path) == Lookup(s, path)
    decreases |path|
  {
    hide Merge, Diff;
    var k, merged := path[0], Merge(s, CreatePatch(a, b));
    PatchedMember(s, a, b, k);
    MergeIsObject(s, CreatePatch(a, b));
    if k in a.members && a.members[k].Object? && b.members[k].Object? {
      NothingChanged(a.members[k], b.members[k]);
      if a.members[k] != b.members[k] {
        PatchKeeps(Member(s, k), a.members[k], b.members[k], path[1..]);
        LookupBelow(s, path);
        LookupBelow(merged, path);
      }
    }
  }

  lemma {:induction false} MergeLeaf<K>(s: Tree<K>, t: Tree<K>, path: seq<K>)
    requires NullFree(t) && Lookup(t, path).Some? && !Lookup(t, path).value.Object?
    ensures Lookup(Merge(s, t), path) == Lookup(t, path)
    decreases |path|
  {
    hide Merge;
    if path == [] {
      MergeValue(s, t);
    } else {
      MergedMember(s, t, path[0]);
      MergeIsObject(s, t);
      MergeLeaf(Member(s, path[0]), t.members[path[0]], path[1..]);
    }
  }

  /** Where they do not, the third one gets the value the patch was made for. */
  lemma {:induction false} PatchDelivers<K>(s: Tree<K>, a: Tree<K>, b: Tree<K>, path: seq<K>)
    requires a.Object? && b.Object? && path != [] && NullFree(b)
    requires Lookup(b, path).Some? && !Lookup(b, path).value.Object?
    requires !SameAlong(a, b, path)
    ensures Lookup(Merge(s, CreatePatch(a, b)), path) == Lookup(b, path)
    decreases |path|
  {
    hide Merge, Diff;
    var k := path[0];
    PatchedMember(s, a, b, k);
    MergeIsObject(s, CreatePatch(a, b));
    if k in a.members && a.members[k].Object? && b.members[k].Object? {
      NothingChanged(a.members[k], b.members[k]);
      PatchDelivers(Member(s, k), a.members[k], b.members[k], path[1..]);
    } else {
      MergeLeaf(Member(s, k), b.members[k], path[1..]);
    }
  }

  // ---------- documents in sections ----------

  /** An object below a common member is patched as if it stood alone. */
  lemma SectionPatched<K>(s: Tree<K>, a: Tree<K>, b: Tree<K>, k: K)
    requires s.Object? && a.Object? && b.Object? && k in s.members && k in a.members && k in b.members
    requires s.members[k].Object? && a.members[k].Object? && b.members[k].Object?
    ensures var merged := Merge(s, CreatePatch(a, b));
            merged.Object? && k in merged.members
            && merged.members[k] == Merge(s.members[k], CreatePatch(a.members[k], b.members[k]))
  {
    PatchedMember(s, a, b, k);
    var x, y := a.members[k], b.members[k];
    if Diff(x, y) == map[] {
      assert Merge(s.members[k], CreatePatch(x, y)).members == s.members[k].members;
    }
  }

  /** The members `m` with `k` set to a value or left out. */
  function With<K>(m: map<K, Tree<K>>, k: K, value: Option<Tree<K>>): map<K, Tree<K>>
  {
    if value.None? then m - {k} else m[k := value.value]
  }

  /** A section in which at most one member differs: the other document gets that member if it does. */
  lemma OneMemberPatched<K>(s: map<K, Tree<K>>, m: map<K, Tree<K>>, k: K, x: Option<Tree<K>>, y: Option<Tree<K>>)
    requires y.Some? ==> !y.value.Object? && !y.value.Null?
    ensures Merge(Object(s), CreatePatch(Object(With(m, k, x)), Object(With(m, k, y)))) ==
            Object(if x == y then s else With(s, k, y))
  {
    hide Merge, Diff;
    var a, b := With(m, k, x), With(m, k, y);
    var merged := Merge(Object(s), CreatePatch(Object(a), Object(b)));
    MergeIsObject(Object(s), CreatePatch(Object(a), Object(b)));
    var expected := if x == y then s else With(s, k, y);
    if y.Some? {
      MergeValue(Member(Object(s), k), y.value);
    }
    forall j | j in merged.members.Keys + expected.Keys
      ensures j in merged.members && j in expected && merged.members[j] == expected[j]
    {
      PatchedMember(Object(s), Object(a), Object(b), j);
      if j in a && j in b && a[j].Object? && b[j].Object? {
        NothingChanged(a[j], b[j]);
      }
    }
    SameMembers(merged.members, expected);
  }
}
