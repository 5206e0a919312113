# The mailu-operator's reconcile protocol, in Dafny

The operator keeps users, domains and aliases of a Mailu server equal to Kubernetes custom resources. Each of its
three reconcilers reads a resource, takes a deep copy of it, adds a finalizer, looks the object up over HTTP, sends at
most one POST, PATCH or DELETE, sets a Ready condition, and finally sends two merge patches (metadata and spec, then
status) computed against the copy. Requests may fail in ways that leave open whether they took effect, patches may be
lost, users edit specs and delete resources at any time, and other clients edit Mailu.

This project models that protocol once, for all three kinds, and proves what it guarantees over single steps, over
unbounded runs, and over the objects and slices the code changes in place. `dafny verify dfyconfig.toml` checks it.

## How the model is built

- **Values.** `Resources` holds specs, finalizers, conditions and the structs built from a spec; `Wire` holds the JSON
  structs as maps from fields to values (an absent field is a nil pointer). `Json`, `Utf8`, `Dates`, `Base64` and `Url`
  are the formats the code relies on, and `Transport` puts them together. `Managed` says in literal terms what a record
  has to show for a spec; convergence and Ready are stated in these terms.
- **One reconcile.** `Protocol.Reconcile` is one call, as a function of the resource, of the record Mailu keeps under
  the resource's name, and of the *weather*: for each of the two requests what others did to the record just before,
  whether the request took effect, and which answer came back; and where a password can come from.
- **Runs.** `Runs.Next` interleaves reconciles (with either patch lost or delivered, and spec, finalizers or deletion
  stored by others meanwhile) with edits, deletion, other controllers' finalizers and outside edits of Mailu.
  `WorkQueue.Turn` is the self-triggered loop with a fixed spec, `Convergence.Tick` the same for a live resource.
  `Isolation.Perform` runs many resources against one store.
- **Objects.** `Slices` models Go slices as windows on shared arrays, `Objects.CustomResource` a resource made of such
  slices, `Reconciler.Reconciler` the controller. Their methods change these objects in place, and are proved to do
  exactly what the functions above say; `Reconciler.Reconcile` ties one call to one move of the run model.
- **Patches.** `MergePatch` is RFC 7396, `Patches` the documents of resources and the two endpoints (`Documents` reads
  them back), and `ApiServers.ApiServer` a server that keeps documents only; they justify the two lines by which `Runs`
  updates the stored resource.

The code is followed where its documentation says otherwise: a raw password in the spec wins over a Secret
(`user_controller.go:259`, against `README.md:56`), and reply fields are sent in updates (`user_controller.go:365-387`,
against `README.md:61-65`).

Some promises fail in corners, and the project says exactly where:

- A look-up that fails for good, or is read as missing, while the resource is deleting drops the finalizer although the
  record is still there (`Steps.FinalizerDropped` and `Steps.Orphaned` are if-and-only-if statements,
  `FinalizerSafety.OrphanedByLookup` the run, and `FinalizerSafety.OrphaningAnswers` two answers with that effect).
- The record is created before the finalizer is stored. If the first metadata patch is lost, and the resource is
  deleted before a later reconcile delivers one, the record stays behind; so it does if the deletion lands while the
  first reconcile runs. `FinalizerSafety.HeldAfterFirst` says exactly when a first reconcile leaves the record held.
- A lost patch is only logged. A deletion whose last metadata patch is lost leaves the resource asleep with its
  finalizer (`Completion.DeletionCompletes`).
- A domain is created without its alternatives and relies on its own condition patch to be looked at again. If nothing
  stored changes, nothing the loop itself does queues it again (`Liveness.Converges` for single schedules,
  `Liveness.ConvergesExactly` for all schedules with delivered patches, `Liveness.ConvergesCrowded` for all those in
  which others touch the record between reconciles too, `Liveness.AlternativesLost` the run).
- Finalizers that others edit while a reconcile runs are overwritten if that reconcile changes the list
  (`Patches.FinalizersReplaced`).

## Model

| member | source | states |
|---|---|---|
| Reconciler.Reconciler.Reconcile | internal/controller/user_controller.go:55-84 | the in-place code from snapshot to second patch does what the protocol function says to the resource, the record, the trace of requests and the outcome, leaves every other record alone, and, whatever others store or delete meanwhile, leaves at the API server the document of the resource that the run model comes to |
| Reconciler.Reconciler.Process | internal/controller/domain_controller.go:64-78 | finalizer added to a live resource, removed in place from a deleting one only when the work ended without error and without requeue |
| Reconciler.Reconciler.Guard | internal/controller/alias_controller.go:64-66 | a live resource gets the finalizer once, a deleting one never |
| Reconciler.Reconciler.PatchBoth | internal/controller/user_controller.go:61-68 | two patches of the difference between the copy taken at the start and the resource as changed since take the stored document to that of the run model |
| Reconciler.Reconciler.Drive | internal/controller/user_controller.go:86-125 | look-up first, then the continuation on what the look-up left in Mailu; requests appear in this order |
| Reconciler.Reconciler.Continue | internal/controller/user_controller.go:100-125 | which of nothing, create, update and delete follows each answer |
| Reconciler.Reconciler.EnsureClient | internal/controller/user_controller.go:89-98 | the client is built once, for the configured server with a trailing slash and with the bearer token's editor, and kept |
| Reconciler.Reconciler.Get | internal/controller/user_controller.go:219-252 | one GET for the object's name, read as found, missing, or failed with or without retry; the resource is untouched |
| Reconciler.Reconciler.Create | internal/controller/user_controller.go:127-149 | new resource, record, requests and outcome of a create |
| Reconciler.Reconciler.CreateRemote | internal/controller/user_controller.go:254-303 | password, body, POST and the reading of its answer, before any condition is set |
| Reconciler.Reconciler.FillPassword | internal/controller/user_controller.go:258-267 | only an empty password is filled, in the resource itself; on failure nothing changes |
| Reconciler.Reconciler.GetRawUserPassword | internal/controller/user_controller.go:410-431 | from the Secret if the spec names one and its key, decoded there, else drawn, and a draw is recorded |
| Reconciler.Reconciler.Update | internal/controller/user_controller.go:151-194 | masked comparison, PATCH only on a difference, condition and outcome |
| Reconciler.Reconciler.UpdateRemote | internal/controller/user_controller.go:305-333 | one PATCH for the name and the reading of its answer |
| Reconciler.Reconciler.Delete | internal/controller/user_controller.go:196-217 | new resource, record, requests and outcome of a delete |
| Reconciler.Reconciler.DeleteRemote | internal/controller/user_controller.go:335-363 | one DELETE for the name and the reading of its answer |
| Reconciler.Reconciler.Conclude | internal/controller/domain_controller.go:124-142 | the common tail: condition set in place for an error or a success, none for a silent retry; outcome |
| Reconciler.Mailu.Do | pkg/mailu/openapi.yaml:1311-1471 | the server: effect on the one record addressed, with an answer that is truthful or arbitrary |
| ApiServers.ApiServer.Patch | internal/controller/user_controller.go:62-64 | applying the merge patch to the stored document, and dropping it if nothing holds it, is what the run model does: finalizers and password if they changed, everything else as stored |
| ApiServers.ApiServer.StatusPatch | internal/controller/user_controller.go:65-67 | the same patch at the status endpoint is what the run model does: conditions if they changed, everything else as stored |
| Objects.CustomResource.DeepCopyInto | api/v1alpha1/zz_generated.deepcopy.go:242-248 | equal value, nil slices stay nil, every slice of the copy in fresh memory |
| Objects.CustomResource.DeepCopy | api/v1alpha1/zz_generated.deepcopy.go:251-258 | the same for a new object, which shares nothing with its source |
| Objects.CopyItems | api/v1alpha1/zz_generated.deepcopy.go:273-278 | element by element, for a list of any length: equal values, all fresh, no two copies sharing memory |
| Objects.CustomResourceList.DeepCopyInto | api/v1alpha1/zz_generated.deepcopy.go:269-280 | list copy: equal, as long, nil stays nil, pairwise separate |
| Objects.CustomResourceList.DeepCopy | api/v1alpha1/zz_generated.deepcopy.go:283-290 | the same for a new list |
| Objects.ShallowCopyChanges | internal/controller/user_controller.go:58 | with a shallow copy instead, removing the finalizer in place would change the snapshot |
| Objects.CustomResource.AddFinalizer | internal/controller/user_controller.go:70-72 | appended unless present, nothing else changes |
| Objects.CustomResource.RemoveFinalizer | internal/controller/user_controller.go:79-81 | ours gone, nothing else changes, no new memory |
| Objects.CustomResource.SetStatusCondition | internal/controller/user_controller.go:107 | condition of the type replaced or added, nothing else changes |
| Objects.Compact | internal/controller/user_controller.go:80 | moving forward within the same array gives exactly the other finalizers in order |
| Objects.PutCondition | internal/controller/user_controller.go:145 | in-place overwrite or append equals the functional update |
| Objects.Contains | internal/controller/user_controller.go:70 | found if and only if present |
| Slices.Copy | api/v1alpha1/zz_generated.deepcopy.go:303-307 | make and copy: equal items, fresh array, nil stays nil |
| Slices.Append | internal/controller/user_controller.go:71 | old items and the new one, in the old array or a fresh one |
| Resources.SetThenFind | internal/controller/user_controller.go:453-460 | a condition that was set is found, and setting changes nothing exactly when it was there already |
| Resources.SetKeepsOthers | internal/controller/user_controller.go:107 | conditions of other types keep their order and number, and no second one of the type appears |
| Resources.RemoveRemoves | internal/controller/user_controller.go:79-81 | removal is complete, idempotent, the identity when there is nothing to remove, and drops as many entries as there were |
| Steps.Frame | internal/controller/user_controller.go:55-84 | deletion is never undone, the spec keeps all but an empty password, at most our condition is set, and the finalizer list is determined by deletion and outcome |
| Steps.Requests | internal/controller/user_controller.go:86-125 | a GET first, at most one write, for the same name, only after a look-up that found or missed; a deleting resource is only deleted |
| Steps.FinalizerDropped | internal/controller/alias_controller.go:64-77 | a deleting resource loses our finalizer if and only if the record was missing, or was found and its deletion accepted, or the look-up failed for good |
| Steps.Orphaned | internal/controller/alias_controller.go:94-112 | under truthful answers a deleting resource lets go of an existing record if and only if its look-up failed for good while the record was there |
| Steps.UpToDateExactly | internal/controller/user_controller.go:161-173 | no PATCH is needed if and only if the list of the spec is not nil, the record agrees with the spec and holds no other field of the struct but password hash and used quota |
| Steps.Outcomes | internal/controller/user_controller.go:100-217 | how what follows the look-up ends, for every answer and in status codes: when a write is sent, what its answer makes of Ready and of the next look, how a step without a write ends, and that a create meeting a conflict leaves the other's record alone |
| Managed.SentExactly | internal/controller/user_controller.go:161-175 | every request of every reconcile is addressed to the spec's name; a PATCH carries exactly the managed fields with the values of the spec and no password, a POST the same but for a domain's alternatives, and a user's password as it then stands in the spec |
| Managed.ReadyMirrors | internal/controller/user_controller.go:127-194 | when a live reconcile ends well with Ready True, the record shows every field of the spec with its value, but for the password, dates left empty, and a domain's alternatives right after creation |
| Managed.PatchedExactly | internal/controller/user_controller.go:154-173 | a reconcile that finds the record only looks, if and only if the list of the spec is not nil, the record shows all of the spec, and a user's record holds no password text or date that the spec leaves unset |
| Managed.SmallSchemas | internal/controller/domain_controller.go:148-165 | for aliases and domains the managed fields are all fields of the struct |
| Answers.DecodesExactly | pkg/mailu/client.go:18-159 | a record decodes if and only if every field of the struct is absent, null, or of its JSON type, integers in 64 bits and dates existing days |
| Answers.FindExactly | internal/controller/user_controller.go:219-252 | how the answer to a look-up is read, in codes and bodies, and the text it leaves |
| Answers.WriteExactly | internal/controller/user_controller.go:274-332 | the same for writes |
| Answers.LookupDecides | internal/controller/user_controller.go:86-125 | what a reconcile makes of any answer to its look-up: an unreachable or refusing Mailu is reported and nothing written, a temporary failure leaves everything as it is, a POST follows only a 404 or a 200 with `null`, a PATCH or DELETE only a 200 with a record that fits |
| Answers.Reported | internal/controller/user_controller.go:70-147 | the finalizer and the conditions that users get to see, to the letter, and when |
| Steps.ReadySound | internal/controller/domain_controller.go:139-186 | when a live reconcile ends well, Ready is True exactly if the look-up succeeded, and then the record agrees with every field an update sends, but a domain's alternatives right after creation |
| Steps.ReadyTrueOnlyWhenDone | internal/controller/user_controller.go:127-217 | Ready becomes True in no other way |
| Steps.ComparedEqual | internal/controller/user_controller.go:161-173 | what compares equal byte by byte, the record agrees with in every field sent |
| Steps.UpdateBodyFields | internal/controller/user_controller.go:161-164 | a PATCH never carries a password, the used quota or a field outside the struct |
| Steps.UpdateBodyIgnoresPassword | internal/controller/user_controller.go:259-267 | filling in a password does not change what an update would send |
| Steps.CreatedAgrees | internal/controller/domain_controller.go:245-253 | a created record holds what an update would send, but for a domain's alternatives |
| Steps.UpdatedAgrees | internal/controller/user_controller.go:305-306 | an updated record holds what the update sent |
| Steps.DateSentAsWritten | internal/controller/user_controller.go:389-405 | a date is sent as the text in the spec, or not at all |
| Steps.DatesExactly | internal/controller/user_controller.go:389-405 | a struct can be built if and only if each date is empty or a day of the calendar |
| Steps.BadDates | internal/controller/user_controller.go:154-159 | a reply date that is no day of the calendar: nothing is written to Mailu, the record stays, Ready becomes False once the look-up succeeds |
| SpecRecords.SpecRecovered | internal/controller/user_controller.go:365-408 | round trip: the struct built from a spec, read field by field, gives the spec back, and its identifying field is the name requests are addressed to |
| SpecRecords.Carried | internal/controller/user_controller.go:365-408 | a field is in the struct exactly when the spec sets it, with the spec's value |
| FinalizerSafety.HeldThroughout | internal/controller/alias_controller.go:64-78 | invariant of all orderly runs, lost patches, disturbed answers and harmless failed look-ups included: an existing record is held by a resource with our finalizer |
| FinalizerSafety.HeldAfterFirst | internal/controller/alias_controller.go:50-78 | the first reconcile of a live resource without our finalizer, whatever its answers and whatever others store or delete meanwhile, establishes that invariant if and only if: in case the resource is gone before the patches, there is no record; else the metadata patch gets through, or others added our finalizer, or the resource is deleting without a record |
| FinalizerSafety.NoOrphan | internal/controller/alias_controller.go:64-78 | if one reconcile of the live resource delivered its metadata patch and the resource vanishes in any orderly run after it, its record is gone too |
| FinalizerSafety.OrphanedByLookup | internal/controller/user_controller.go:106-119 | one look-up read as missing or failed for good while deleting, in an otherwise orderly run, leaves an existing record behind |
| FinalizerSafety.OrphaningAnswers | internal/controller/alias_controller.go:179-208 | a 401, and a 200 with the body `null`, are such answers for every kind |
| FinalizerSafety.OrphanedByLostPatch | internal/controller/user_controller.go:61-74 | for every new resource that can be created: with its first metadata patch lost, a later deletion leaves the record behind |
| FinalizerSafety.OrphanedByEarlyDeletion | internal/controller/user_controller.go:58-74 | so does a deletion that lands while the first reconcile runs |
| Completion.WaitingTurn | internal/controller/user_controller.go:70-84 | how a round ends for a deleting resource, exactly, even if others change, delete or recreate the record before either request: it waits on unless the work is done, and then it is over, or sleeps with its finalizer, as the metadata patch gets through or not; undisturbed, the work is done |
| Completion.DeletionCompletes | internal/controller/user_controller.go:61-84 | over any schedule with an undisturbed round, others working on the record included, the deletion ends; finalizer and record are gone for good if and only if the finishing round delivers its metadata patch, else the resource sleeps with its finalizer |
| Completion.StuckRecovers | internal/controller/user_controller.go:70-84 | one more undisturbed look with its patch delivered frees such a resource |
| Deletion.NothingWrittenAfterDeletion | internal/controller/user_controller.go:112-118 | no run of a deleting resource sends a POST or PATCH |
| Deletion.NoResurrection | internal/controller/alias_controller.go:106-119 | once a DELETE was sent in any run, no continuation sends a POST or PATCH |
| Conservation.StepConserves | internal/controller/user_controller.go:161-175 | a step without DELETE keeps password, used quota and unlisted fields of an existing record |
| Conservation.Conserved | internal/controller/domain_controller.go:148-167 | the same over every run without outside edits of the record |
| PasswordSources.FromSpec | internal/controller/user_controller.go:258-267 | a new user with a password in its spec is posted with that one, whatever Secrets there are |
| PasswordSources.FromSecret | internal/controller/user_controller.go:410-419 | else, with both references set, with the text that the named Secret holds in base64 under the named key; none is drawn, it is written into the spec, and it is what Mailu's hash is made of |
| PasswordSources.SecretAwaited | internal/controller/user_controller.go:433-447 | no such Secret, no such key or no base64: nothing is sent, that reason is reported and the reconcile is repeated |
| PasswordSources.FromGenerator | internal/controller/user_controller.go:420-429 | with a reference missing a password is drawn and posted, or the reconcile is repeated if that fails |
| Passwords.PasswordKept | internal/controller/user_controller.go:61-64 | a user that survives a reconcile is stored with the spec the reconcile left if and only if its metadata patch is delivered or the reconcile filled in no password |
| Passwords.PasswordStable | internal/controller/user_controller.go:254-283 | over every run in which no patch that carries a password is lost, draws happen only while there is no password, every POST carries the chosen one, and the first one stays |
| Passwords.DrawnAtMostOnce | internal/controller/user_controller.go:420-429 | in such a trace the generator was used at most once |
| Passwords.LostPatchDrawsAgain | internal/controller/user_controller.go:61-64 | with the metadata patch of a failed create lost, a second password is drawn |
| Races.LostAnswer | internal/controller/user_controller.go:294-300 | a create answered by the gateway may or may not have taken effect; it is retried, and the next undisturbed reconcile sends a second POST if and only if it had not |
| Races.LostRace | internal/controller/user_controller.go:289-291 | a record created by somebody else between look-up and POST is kept, the conflict is not reported, and the next undisturbed reconcile updates that record to show the spec |
| Runs.InSequence | internal/controller/user_controller.go:55-84 | runs and traces of moves in sequence are those of the parts, one after the other |
| Runs.OneReconcile | internal/controller/user_controller.go:55-84 | the trace of one reconcile holds all its requests and draws |
| Runs.VanishesExactly | internal/controller/alias_controller.go:64-77 | for every move, exactly when the resource vanishes |
| Runs.ReconcileStores | internal/controller/user_controller.go:61-68 | what is stored after a reconcile, with others at work meanwhile and for each pair of delivered or lost patches |
| Lists.StepKeepsLists | internal/controller/alias_controller.go:64-76 | one reconcile keeps foreign finalizers and foreign conditions in order and number, ours at most once |
| Lists.ListsKeptThroughout | internal/controller/alias_controller.go:64-76 | the same over every run, and our finalizer never returns to a deleting resource |
| WorkQueue.TurnSaves | internal/controller/user_controller.go:61-84 | what a round stores for each pair of delivered or lost patches, and exactly when the resource is queued again |
| Convergence.TickIsTurn | internal/controller/user_controller.go:61-84 | a tick of a live resource is a turn of the loop, hence a move of the run model |
| Convergence.TicksAreTurns | internal/controller/user_controller.go:61-84 | the same for schedules |
| Convergence.FailedLookup | internal/controller/user_controller.go:101-110 | of a look-up that fails for good a live resource sleeps exactly if finalizer and condition are there already or their patches are lost |
| Convergence.BearableTick | internal/controller/user_controller.go:100-125 | under any bearable disturbance, lost patches included, the resource sleeps with an unconverged record exactly if the round slips: a look-up failed for good, or a domain was created without its alternatives, and nothing that is stored changed |
| Convergence.Progress | internal/controller/user_controller.go:127-194 | an undisturbed tick lowers the rank of the state; in a settled state it changes nothing |
| Liveness.Converges | internal/controller/user_controller.go:284-302 | from any start and over any schedule with finitely many faults, lost patches among them, the loop sleeps after at most four rounds a fault and three more, and the record then equals the spec if and only if no round slipped |
| Liveness.Quiescent | internal/controller/domain_controller.go:354-358 | undisturbed, at most two reconciles change something; the third changes neither resource nor record |
| Convergence.SettledSilent | internal/controller/user_controller.go:169-173 | a settled loop sends no PATCH any more, exactly if the record holds nothing in a field that the spec leaves unset; only a user's can |
| Liveness.ConvergesExactly | internal/controller/domain_controller.go:121-186 | with patches delivered, all schedules of tolerable faults end converged if and only if the start is not a domain that is marked as created, whose record is gone and whose alternatives differ from the server's default |
| Liveness.ConvergesCrowded | internal/controller/domain_controller.go:121-186 | with others changing, creating or deleting the record between reconciles as well, all schedules end converged if and only if the resource is no domain with alternatives that differ from the server's default |
| Liveness.CalmExactly | internal/controller/domain_controller.go:121-186 | without any fault, the same but for such starts that still lack the finalizer |
| Liveness.AlternativesLost | internal/controller/domain_controller.go:245-253 | how that start comes about: a new domain is created, another client deletes its record before the next look-up, that reconcile creates it again and sleeps without the alternatives |
| Liveness.SlippedHeals | internal/controller/domain_controller.go:148-186 | a domain that sleeps so converges once anything queues it again and the rounds are calm |
| Liveness.NewDomain | internal/controller/domain_controller.go:245-253 | a concrete domain and server default for which it does |
| Liveness.LostStatusPatch | internal/controller/domain_controller.go:55-62 | a lost status patch alone has the same effect |
| Isolation.AddressInjective | internal/controller/user_controller.go:220 | without an at-sign in the name, key and address determine each other |
| Isolation.SharedKey | internal/controller/user_controller.go:256 | two addresses share a key if and only if they are equal, or one name continues the other with an at-sign and a part of its domain |
| Isolation.SharedKeyExample | internal/controller/user_controller.go:256 | `a@b` at `c` and `a` at `b@c` do |
| Isolation.KeysDiffer | internal/controller/user_controller.go:336 | resources of one kind share a key exactly when they name the same object |
| Isolation.ActionSeen | internal/controller/user_controller.go:219-220 | an action anywhere in the cluster is, for one resource and its record, its own move, an outside edit, or nothing |
| Isolation.Isolated | internal/controller/user_controller.go:219-220 | in any interleaving over many resources with distinct keys, each resource and record go through the run of their own moves |
| Patches.PatchedDocument | internal/controller/user_controller.go:60-68 | the merge patch from snapshot to changed resource, applied to the server's document, gives exactly the document the run model stores |
| Patches.EditsSurvive | internal/controller/user_controller.go:58-68 | no reconcile reverts a spec edited meanwhile, whatever else the server holds by then, but for a password it filled in; applied to the snapshot the patch gives the changed resource |
| Patches.FinalizersReplaced | internal/controller/user_controller.go:62-64 | finalizers edited meanwhile survive if and only if the reconcile leaves the list alone or makes the same of it, as a list is replaced whole |
| Patches.MainEndpoint | internal/controller/user_controller.go:62-64 | merging everything but the status gives the metadata and spec of the run model |
| Patches.StatusEndpoint | internal/controller/user_controller.go:65-67 | merging the status alone gives the conditions of the run model |
| Documents.DocumentRead | api/v1alpha1/user_types.go:24-102 | round trip: finalizers, deletion, spec and conditions are read out of a document as they were, but for an empty list |
| Documents.ZeroOmitted | api/v1alpha1/user_types.go:24-102 | no zero value is in a document, but for names |
| MergePatch.PatchReaches | internal/controller/user_controller.go:62 | a computed patch takes its first document to its second, provided the second has no null members |
| MergePatch.PatchKeeps | internal/controller/user_controller.go:62 | at every path where the two documents agree, any third document keeps its value |
| MergePatch.PatchDelivers | internal/controller/user_controller.go:62 | at every other path with a value, the third document gets the new one |
| MergePatch.NothingChanged | internal/controller/user_controller.go:65 | a patch is empty exactly when the documents are equal |
| MergePatch.OneMemberPatched | internal/controller/user_controller.go:65 | a section with one changed member hands over that member, lists as a whole |
| Wire.SameBytes | internal/controller/user_controller.go:166-169 | marshalled structs are byte-equal if and only if every field agrees, presence included |
| Wire.NilSliceNeverEqual | internal/controller/alias_controller.go:148-158 | a pointer to a nil slice never compares equal to a decoded record |
| Wire.SchemaDistinct | pkg/mailu/client.go:18-159 | no field is declared twice in a struct |
| Wire.TagsDiffer | pkg/mailu/client.go:88-159 | distinct fields have distinct JSON names |
| Json.UnmarshalMarshal | internal/controller/user_controller.go:166-167 | reading an object back gives the object, for every text |
| Json.MarshalInjective | internal/controller/user_controller.go:169 | different objects have different encodings |
| Json.Escaped | internal/controller/user_controller.go:166-167 | no control or HTML character and no line separator is written as it is, and only these, quotes and backslashes are escaped |
| Dates.ParsesExactly | internal/controller/user_controller.go:398-405 | the texts that parse: four, two and two digits that name a day, the days spelled out by month and year |
| Dates.Calendar | internal/controller/user_controller.go:390-397 | the dates there are, in order, have consecutive numbers by the closed formula of the Gregorian calendar |
| Dates.ParseFormat | internal/controller/user_controller.go:390-397 | a date written and read back is the same date |
| Dates.FormatParse | internal/controller/user_controller.go:398-405 | a text that parses is the text its date is written as |
| Secrets.GetUserPassword | internal/controller/user_controller.go:433-451 | missing secret, missing key and malformed base64 are errors; whatever bytes a password has, stored in base64 they come back |
| Secrets.PasswordRecovered | internal/controller/user_controller.go:433-451 | a text stored as base64 of its UTF-8 form is the password the protocol uses |
| Utf8.TextReplaces | internal/controller/user_controller.go:450 | a byte that starts no character becomes the replacement character, and the text around it is read as usual |
| Base64.DecodeInto | internal/controller/user_controller.go:444-445 | the loop over symbols fills the caller's buffer with the decoding and never writes past the advertised length |
| Base64.DecodeEncode | internal/controller/user_controller.go:445 | decoding undoes encoding for every byte string |
| Base64.DecodeWrapped | internal/controller/user_controller.go:445 | also when the text is wrapped over lines |
| Base64.DecodesExactly | internal/controller/user_controller.go:445-448 | exactly the texts that decode: groups of four letters, at most two equals signs at the very end, line breaks anywhere |
| Base64.Unwrapped | internal/controller/user_controller.go:445 | line feeds and carriage returns are skipped and nothing else is |
| Client.NewClient | pkg/mailu/client.go:192-212 | options apply in order, the first failure is returned, else the server ends in a slash and there is a doer |
| Client.HttpClient.ApplyEditors | pkg/mailu/client.go:888-900 | the client's editors, then the call's, each on what the previous left, up to the first failure |
| Client.EditedInTurn | pkg/mailu/client.go:888-900 | a second sequence of editors works on what the first one left, unless that failed |
| Client.EditorAdded | pkg/mailu/client.go:225-230 | an editor given as last option is applied after all others, and nothing else changes |
| Client.OperatorClient | internal/controller/user_controller.go:90-97 | the operator's options never fail and put the token into every request |
| Client.DoerReplaced | pkg/mailu/client.go:216-221 | a doer given as last option replaces any other and nothing else |
| Client.AddressExactly | pkg/mailu/client.go:687-840 | verb and path of every request to the letter, below the server's base, for each kind |
| Client.AddressDetermines | pkg/mailu/client.go:687-840 | two requests share verb and path if and only if they are the same operation on the same object (or kind, for creates) |
| Client.KeysAddressable | internal/controller/user_controller.go:220 | users and aliases can always be addressed, domains unless their name is empty, `.` or `..` |
| Transport.RequestArrives | pkg/mailu/client.go:722-806 | escaping, path resolution, JSON and UTF-8 together: what the server reads out of the message by literal path segments and member names is the kind and the request, key and body |
| Transport.AllArrive | internal/controller/user_controller.go:220-336 | this holds for every request of every reconcile, but for domains with an empty name, `.` or `..` |
| Transport.BodyArrives | pkg/mailu/client.go:762-770 | a marshalled struct is read back field by field, by the JSON names written out |
| Url.RoundTrip | pkg/mailu/client.go:693 | every name is recovered from its escaped segment |
| Url.EscapedStaysOneSegment | pkg/mailu/client.go:703 | no escaped name contains a slash, question mark or hash |
| Url.SentAsWritten | pkg/mailu/client.go:693 | exactly the names that are sent as they are, and what becomes of other bytes |
| Url.DotsGone | pkg/mailu/client.go:703-711 | no dot segment is left by resolving, and the path stays absolute |
| Url.SlashEscaped | pkg/mailu/client.go:203-206 | the added slash survives the escaping of the base path |
| Url.EscapedPathMeans | pkg/mailu/client.go:698-711 | escaping a base path anew, spaces and other bytes that may not stay, does not change what it stands for |
| Url.KeptAsGiven | pkg/mailu/client.go:698-711 | a base path is sent as it was given exactly if it holds nothing that may not stand in an escaped path |
| Url.AddressedAtRoot | pkg/mailu/client.go:698-711 | without any path in the server URL the request path is made absolute |
| Url.Addressed | pkg/mailu/client.go:703-711 | where a request goes, for every name and every last segment of the base path as it is sent: that segment is dropped, the rest kept, dot names collapse |
| Url.NameRecovered | pkg/mailu/client.go:687-719 | with the added slash the whole base is kept but for `.` and `..`; the path ends in a segment that reads back the name exactly when the name is neither of these nor empty |
| Url.PathsDiffer | pkg/mailu/client.go:687-840 | item paths coincide only for the same object and never with the path of a create |
| Url.QueryDefeatsSlash | pkg/mailu/client.go:203-206 | for a server URL with a query or fragment the added slash does not protect the last path segment |

## Left out

- Client.AddressDetermines: URLs are compared as texts after the authority; connections, headers other than the token, and the server's routing are not modelled. The protocol addresses records by key; `Transport` proves that the messages carry them.
- Wire.Decode: member names match exactly and occur once; Go's decoder also accepts other letter cases and takes the last of several.
- Reconciler.Mailu.Do: one store per kind; a record is the fields the structs know plus unlisted ones, and quotas, limits and permissions of Mailu are only present as refusals.
- Liveness.Converges: assumes non-nil lists (the CRDs default them to `[]`), integers in the range of Go's types, and a non-empty name; nobody edits the resource during a schedule. Others may leave any record the decoder can read before a write and before a look-up (the latter not in `ConvergesExactly`, which `ConvergesCrowded` makes up for). The loop is the self-triggered one: the resource sleeps when the loop does not queue it, though periodic resyncs of the informers, restarts and edits will queue it again. A 409 because the name is another domain's alternative may come any finite number of times. Answers that report a success or a missing record falsely are excluded.
- Completion.DeletionCompletes: excludes look-ups that fail for good, which `Steps.Orphaned` treats, answers that report a success or a missing record falsely, and others that recreate the record once the deletion is over.
- FinalizerSafety.NoOrphan: assumes the addressed name fixed; renaming a live resource orphans the old record by design of the code.
- Deletion.NoResurrection: rests on one controller process seeing a monotone deletion timestamp; failover between replicas and stale caches are not modelled.
- Secrets.Password: bytes of a password that are not UTF-8 appear in the protocol as the replacement character, as they do in the JSON that leaves the program; the byte string inside the program is not kept.
- Protocol.Stored: the password hash is represented by the text it was made from.
- Objects.CustomResource.SetStatusCondition: transition times and observed generations are not kept.
- Objects.CopyItems: the elements of a list are references to separate objects, where Go has an array of structs; list metadata is not kept.
- Objects.CustomResource: the three Go types are one class over a sum of three specs; type and list metadata, labels and resource versions are not kept, and the deletion timestamp is a flag.
- Steps.ReadySound: for users, a reply date that the spec leaves empty is neither sent nor compared.
- Patches.PatchedDocument: documents have the members listed in `Patches.Name`; the deletion timestamp is a flag there too.
- The text of errors that Go's libraries make (transport, JSON, base64, dates): arbitrary or representative; the controllers' own texts are modelled.
- Wall-clock time, the five-second delay and rate-limited backoff: only done, requeue and error are kept.
- The password generator: an arbitrary text or an error; that it is not empty is an assumption of the password theorems.
- Concurrent workers and leader election: one worker per key.
- `cmd/main.go`, manager set-up, RBAC, the custom resource definitions except their defaults, `DeleteAlternative`, and the dead generated client: wiring, or not used by any reconciler.
