/** Custom resources as the controllers hold them: mutable objects whose slices may be shared. */
module Objects {
  import opened Common
  import opened Slices
  import opened Resources

  // ---------- the slice algorithms of controllerutil and meta ----------

  method Contains(f: Slice<string>, x: string) returns (found: bool)
    requires f.Valid()
    ensures found <==> x in f.Items()
  {
    for i := 0 to f.len
      invariant x !in f.Items()[..i]
    {
      if f.data[i] == x {
        assert f.Items()[i] == x;
        return true;
      }
    }
    return false;
  }

  /** The other finalizers are moved forward within the same backing array. */
  method Compact(s: Slice<string>) returns (t: Slice<string>)
    requires s.Valid()
    modifies s.data
    ensures t.Valid() && t.data == s.data && t.isNil == s.isNil
    ensures t.Items() == RemoveFinalizer(old(s.Items()))
  {
    var f, length := s.data, s.len;
    ghost var was := f[..length];
    var index := 0;
    assert was[..0] == [];
    for i := 0 to length
      invariant index <= i
      invariant f[..index] == RemoveFinalizer(was[..i])
      invariant f[i..length] == was[i..]
    {
      assert f[i] == f[i..length][0] == was[i];
      assert was[..i + 1] == was[..i] + [was[i]];
      RemoveAppended(was[..i], was[i]);
      assert f[i + 1..length] == f[i..length][1..] == was[i + 1..];
      if f[i] != FINALIZER {
        f[index] := f[i];
        index := index + 1;
      }
    }
    assert was[..length] == was;
    return s.(len := index);
  }

  lemma {:induction false} SetConditionAt(conditions: seq<Condition>, c: Condition, i: nat)
    requires i <= |conditions|
    requires forall k :: 0 <= k < i ==> conditions[k].ctype != c.ctype
    requires i < |conditions| ==> conditions[i].ctype == c.ctype
    ensures SetCondition(conditions, c) == if i < |conditions| then conditions[i := c] else conditions + [c]
  {
    if i > 0 {
      SetConditionAt(conditions[1..], c, i - 1);
      assert conditions == [conditions[0]] + conditions[1..];
    }
  }

  /** The first condition of the type is overwritten in place, else one is appended. */
  method PutCondition(s: Slice<Condition>, c: Condition) returns (t: Slice<Condition>)
    requires s.Valid()
    modifies s.data
    ensures t.Valid() && t.Items() == SetCondition(old(s.Items()), c)
    ensures t.data == s.data || fresh(t.data)
  {
    for i := 0 to s.len
      invariant s.Items() == old(s.Items())
      invariant forall k :: 0 <= k < i ==> s.Items()[k].ctype != c.ctype
    {
      if s.data[i].ctype == c.ctype {
        SetConditionAt(s.Items(), c, i);
        s.data[i] := c;
        return s;
      }
    }
    SetConditionAt(s.Items(), c, s.len);
    t := Append(s, c);
  }

  class CustomResource {
    var finalizers: Slice<string>
    var deleting: bool
    var spec: Spec               // its list is kept in `list`
    var list: Slice<string>
    var conditions: Slice<Condition>

    /** Everything a write through this object can reach. */
    ghost function Footprint(): set<object>
      reads this
    {
      {this, finalizers.data, list.data, conditions.data}
    }

    predicate Valid()
      reads this
    {
      finalizers.Valid() && list.Valid() && conditions.Valid() && finalizers.data != list.data
    }

    function SpecValue(): Spec
      requires Valid()
      reads this, list.data
    {
      spec.WithList(if list.isNil then None else Some(list.Items()))
    }

    /** The resource this object stands for. */
    function Value(): Resource
      requires Valid()
      reads this, finalizers.data, list.data, conditions.data
    {
      Resource(finalizers.Items(), deleting, SpecValue(), conditions.Items())
    }

    /** A zero object. */
    constructor ()
      ensures Valid() && fresh(Footprint())
    {
      new;
      finalizers := Nil();
      list := Nil();
      conditions := Nil();
    }

    /** `*out = *in` shares every slice; each is then replaced by a copy. */
    method DeepCopyInto(out: CustomResource)
      requires Valid() && out !in Footprint()
      modifies out
      ensures out.Valid() && out.Value() == old(Value())
      ensures out.finalizers.isNil == finalizers.isNil && out.conditions.isNil == conditions.isNil
      ensures fresh(out.Footprint() - {out})
    {
      hide Spec.WithList;
      out.finalizers, out.deleting, out.spec, out.list, out.conditions := finalizers, deleting, spec, list, conditions;
      out.finalizers := Copy(finalizers);
      out.list := Copy(list);
      out.conditions := Copy(conditions);
    }

    /** A new object of equal value that shares nothing with this one. */
    method DeepCopy() returns (out: CustomResource)
      requires Valid()
      ensures out.Valid() && out.Value() == Value()
      ensures out.finalizers.isNil == finalizers.isNil && out.conditions.isNil == conditions.isNil
      ensures fresh(out.Footprint())
    {
      hide Spec.WithList;
      out := new CustomResource();
      DeepCopyInto(out);
    }

    method AddFinalizer()
      requires Valid()
      modifies Footprint()
      ensures Valid() && fresh(Footprint() - old(Footprint()))
      ensures Value() == old(Value()).(finalizers := Resources.AddFinalizer(old(Value()).finalizers))
    {
      hide Spec.WithList;
      var found := Contains(finalizers, FINALIZER);
      if !found {
        finalizers := Append(finalizers, FINALIZER);
      }
    }

    method RemoveFinalizer()
      requires Valid()
      modifies Footprint()
      ensures Valid() && Footprint() == old(Footprint())
      ensures Value() == old(Value()).(finalizers := Resources.RemoveFinalizer(old(Value()).finalizers))
    {
      hide Spec.WithList, Resources.RemoveFinalizer;
      finalizers := Compact(finalizers);
    }

    method SetStatusCondition(c: Condition)
      requires Valid()
      modifies Footprint()
      ensures Valid() && fresh(Footprint() - old(Footprint()))
      ensures Value() == old(Value()).SetReady(c)
    {
      hide Spec.WithList, SetCondition;
      conditions := PutCondition(conditions, c);
    }
  }

  /** Why a snapshot has to be a deep copy: of a shallow one, `RemoveFinalizer` overwrites the finalizers. */
  method ShallowCopyChanges(obj: CustomResource) returns (snapshot: CustomResource)
    requires obj.Valid()
    requires var f := obj.Value().finalizers; |f| > 1 && f[0] == FINALIZER && f[1] != FINALIZER
    modifies obj.Footprint()
    ensures snapshot.finalizers.Valid() && snapshot.finalizers.Items() != old(obj.Value()).finalizers
  {
    hide Spec.WithList;
    snapshot := new CustomResource();
    snapshot.finalizers := obj.finalizers;
    ghost var f := obj.finalizers.Items();
    assert RemoveFinalizer(f) == RemoveFinalizer(f[1..]) && RemoveFinalizer(f[1..])[0] == f[1];
    obj.finalizers := Compact(obj.finalizers);
    assert snapshot.finalizers.Items()[0] == obj.finalizers.Items()[0];
  }

  ghost predicate AllValid(items: seq<CustomResource>)
    reads items
  {
    forall item <- items :: item.Valid()
  }

  /** No item can be reached through another. */
  ghost predicate Separate(items: seq<CustomResource>)
    reads items
  {
    forall i, j :: 0 <= i < j < |items| ==> items[i].Footprint() !! items[j].Footprint()
  }

  /** `make` and one `DeepCopyInto` per element. */
  method CopyItems(items: seq<CustomResource>) returns (copies: seq<CustomResource>)
    requires AllValid(items)
    ensures AllValid(copies) && Separate(copies) && |copies| == |items|
    ensures forall i :: 0 <= i < |items| ==> fresh(copies[i].Footprint()) && copies[i].Value() == old(items[i].Value())
  {
    hide CustomResource.Value;
    copies := [];
    for i := 0 to |items|
      invariant |copies| == i
      invariant AllValid(copies) && Separate(copies)
      invariant forall k :: 0 <= k < i ==> fresh(copies[k].Footprint()) && copies[k].Value() == old(items[k].Value())
    {
      assert unchanged(items[i].Footprint());
      assert items[i].Value() == old(items[i].Value());
      var item := items[i].DeepCopy();
      copies := copies + [item];
    }
  }

  /** A list as the cache holds it; `items` are the elements of its slice. */
  class CustomResourceList {
    var items: seq<CustomResource>
    var isNil: bool

    constructor ()
      ensures items == [] && isNil
    {
      items, isNil := [], true;
    }

    method DeepCopyInto(out: CustomResourceList)
      requires AllValid(items) && out != this
      modifies out
      ensures out.isNil == isNil && |out.items| == |items|
      ensures AllValid(out.items) && Separate(out.items)
      ensures forall i :: 0 <= i < |items| ==>
                fresh(out.items[i].Footprint()) && out.items[i].Value() == old(items[i].Value())
    {
      hide Spec.WithList;
      var copies := CopyItems(items);
      out.items, out.isNil := copies, isNil;
    }

    method DeepCopy() returns (out: CustomResourceList)
      requires AllValid(items)
      ensures fresh(out) && out.isNil == isNil && |out.items| == |items|
      ensures AllValid(out.items) && Separate(out.items)
      ensures forall i :: 0 <= i < |items| ==>
                fresh(out.items[i].Footprint()) && out.items[i].Value() == old(items[i].Value())
    {
      hide Spec.WithList, CustomResource.Value;
      out := new CustomResourceList();
      forall i | 0 <= i < |items|
        ensures items[i].Value() == old(items[i].Value())
      {
        assert unchanged(items[i].Footprint());
      }
      DeepCopyInto(out);
    }
  }
}
