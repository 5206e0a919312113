/** The API server: resources as JSON documents, patched at two endpoints. */
module ApiServers {
  import opened Common
  import opened Resources
  import opened Objects
  import opened MergePatch
  import opened Patches
  import opened Steps
  import opened Runs

  lemma TouchedMetadata(res: Resource, m: Meanwhile)
    ensures var listed := if m.finalizers.Some? then With(MetadataMembers(res), Finalizers, TextList(m.finalizers))
                          else MetadataMembers(res);
            (if m.deletes then listed[DeletionTimestamp := Bool(true)] else listed) == MetadataMembers(Touched(res, m))
  {
    hide TextList;
    var base: map<Name, Patches.Json> := if res.deleting then map[DeletionTimestamp := Bool(true)] else map[];
    if m.finalizers.Some? {
      WithTwice(base, Finalizers, TextList(Some(res.finalizers)), TextList(m.finalizers));
      assert m.finalizers == Some(m.finalizers.value);
    }
  }

  lemma TouchedDocument(res: Resource, m: Meanwhile)
    ensures var d := Document(res).members;
            var listed := if m.finalizers.Some? then With(d[Metadata].members, Finalizers, TextList(m.finalizers))
                          else d[Metadata].members;
            var metadata := if m.deletes then listed[DeletionTimestamp := Bool(true)] else listed;
            var spec := if m.spec.Some? then SpecMembers(m.spec.value) else d[SpecSection].members;
            Object(d[Metadata := Object(metadata)][SpecSection := Object(spec)]) == Document(Touched(res, m))
  {
    TouchedMetadata(res, m);
    hide SpecMembers, StatusMembers, TextList, With, MetadataMembers;
  }

  lemma PatchedKind(server: Option<Resource>, before: Resource, after: Resource, delivered: bool)
    ensures server.Some? ==>
              var between := Collected(if delivered then MetaPatched(server.value, before, after) else server.value);
              between.Some? ==> between.value.spec.Kind() == server.value.spec.Kind()
  {
  }

  /** The API server keeps the resource as a JSON document, and works on documents only. The ghost parameters say
      which resource, if any, the stored document stands for. */
  class ApiServer {
    var stored: Option<Patches.Json>

    constructor (res: Resource)
      ensures stored == Documented(Some(res))
    {
      stored := Some(Document(res));
    }

    /** A resource whose deletion nothing holds up any more is dropped. */
    method Collect(ghost server: Option<Resource>)
      requires stored == Documented(server)
      modifies this
      ensures stored == Documented(if server.None? then None else Collected(server.value))
    {
      if stored.Some? {
        ReleasedExactly(server.value);
        if Released(stored.value) {
          stored := None;
        }
      }
    }

    /** The merge patch from `before` to `after` at the main endpoint: finalizers and password change as the run
        model says and nothing else does. `delivered` says whether it gets through. */
    method Patch(after: CustomResource, before: CustomResource, delivered: bool, ghost server: Option<Resource>)
      requires after.Valid() && before.Valid() && stored == Documented(server)
      requires Changed(before.Value(), after.Value())
      requires server.Some? ==> server.value.spec.Kind() == before.Value().spec.Kind()
      modifies this
      ensures stored == Documented(if server.None? then None
                                   else if delivered
                                   then Collected(MetaPatched(server.value, before.Value(), after.Value()))
                                   else Collected(server.value))
    {
      hide Document, CreatePatch, MainMerged, MetaPatched, CustomResource.Value, Changed;
      if stored.Some? && delivered {
        MainEndpoint(server.value, before.Value(), after.Value());
        var patch := CreatePatch(Document(before.Value()), Document(after.Value()));
        stored := Some(MainMerged(stored.value, patch));
        Collect(Some(MetaPatched(server.value, before.Value(), after.Value())));
      } else {
        Collect(server);
      }
    }

    /** The same patch at the status endpoint: conditions change as the run model says and nothing else does. */
    method StatusPatch(after: CustomResource, before: CustomResource, delivered: bool, ghost server: Option<Resource>)
      requires after.Valid() && before.Valid() && stored == Documented(server)
      requires Changed(before.Value(), after.Value())
      requires server.Some? ==> server.value.spec.Kind() == before.Value().spec.Kind()
      modifies this
      ensures stored == Documented(if server.None? || !delivered then server
                                   else Some(StatusPatched(server.value, before.Value(), after.Value())))
    {
      hide Document, CreatePatch, StatusMerged, StatusPatched, CustomResource.Value, Changed;
      if stored.Some? && delivered {
        StatusEndpoint(server.value, before.Value(), after.Value());
        var patch := CreatePatch(Document(before.Value()), Document(after.Value()));
        stored := Some(StatusMerged(stored.value, patch));
      }
    }

    /** Others edit the stored document. */
    method Touch(m: Meanwhile, ghost server: Resource)
      requires stored == Some(Document(server))
      modifies this
      ensures stored == Documented(Collected(Touched(server, m)))
    {
      var metadata := stored.value.members[Metadata].members;
      if m.finalizers.Some? {
        metadata := With(metadata, Finalizers, TextList(m.finalizers));
      }
      if m.deletes {
        metadata := metadata[DeletionTimestamp := Bool(true)];
      }
      var spec := if m.spec.Some? then SpecMembers(m.spec.value) else stored.value.members[SpecSection].members;
      stored := Some(Object(stored.value.members[Metadata := Object(metadata)][SpecSection := Object(spec)]));
      TouchedDocument(server, m);
      Collect(Some(Touched(server, m)));
    }
  }
}
