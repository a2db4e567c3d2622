# freenas-iscsi-provisioner, modelled in Dafny

This project models the core of a Kubernetes external provisioner. The provisioner backs each
PersistentVolume with an iSCSI LUN on a FreeNAS appliance.

**Provisioning** (`Provision`) runs as a saga. It first checks the claim's access modes. It then reads the
appliance's iSCSI global configuration and the parent dataset, derives the names of the volume's resources,
and checks the extent's disk path. After that it creates five resources in order: a zvol, an iSCSI target, a
target group, an extent and a target-to-extent (LUN) mapping. When a target create conflicts (409), the
target is looked up by name and the saga goes on whatever the lookup says. An extent or mapping conflict goes
on only when the lookup finds one. A target group conflict (409) goes on with the group as posted, and a 404
goes on only when the group lookup answers 200. An extent create that fails with a reply other than 409 is
retried up to twice. A hard failure rolls back what was created
before it. Finally the provisioner builds the PersistentVolume and its annotations.

**Deprovisioning** (`Delete`) reads those annotations back. It fetches the parent dataset, then deletes the
target, the extent and the zvol. A resource that is already gone counts as deleted.

**The clients.** Each `freenas/*` resource client is modelled operation by operation: `Get` (by ID or by
natural key over a listing), `Create`, `Delete` and `CopyFrom`, with the status codes each one accepts.

**The appliance.** The appliance is a script of replies. The i-th HTTP request gets the i-th reply; past the
end of the script, and on a transport failure, it gets no reply. Every run records its trace of requests.
This is what lets each property hold for *every* appliance behaviour. Examples:

- what a failed provisioning has deleted;
- that extent creation is attempted at most three times;
- that deprovisioning stops at the first refused delete.

Two of Go's runtime failures are modelled as a `Crashed` outcome rather than left out:

- dereferencing a nil `*http.Response`;
- dereferencing a nil LUN-id pointer.

Modules, in dependency order:

- `FreenasTypes`: the records the appliance exchanges.
- `GoStrings`, `Strconv`, `FilePath`: the parts of Go's `strings`, `strconv` and `path/filepath` the core uses.
- `Appliance`: endpoints, replies, the scripted link.
- `FreenasDataset`, `FreenasZvol`, `FreenasTarget`, `FreenasTargetGroup`, `FreenasExtent`, `FreenasTargetToExtent`: the resource clients.
- `ProvisionerNaming`: access modes, truncation, names, portals.
- `Volume`: configuration, claim, PersistentVolume, outcomes.
- `SagaTrace`: trace predicates and the rollback lists.
- `ProvisionSaga`: provisioning.
- `Deprovision`: deprovisioning.

## Model

| member | source | states |
|---|---|---|
| ProvisionerNaming.AccessModesContains | provisioner/provisioner.go:276-283 | true exactly when the mode occurs in the list |
| ProvisionerNaming.AccessModesContainedInAll | provisioner/provisioner.go:286-293 | true exactly when every requested mode is among the indexed ones; an empty request is always accepted |
| ProvisionerNaming.SupportedModes | provisioner/provisioner.go:295-300 | a claim is accepted exactly when each of its modes is ReadWriteOnce or ReadOnlyMany; ReadWriteMany is refused |
| ProvisionerNaming.TruncateString | provisioner/provisioner.go:706-712 | the result is a prefix of the input of length min(len, n), and the input itself when it already fits |
| ProvisionerNaming.Int32 | provisioner/provisioner.go:550 | Go's int32 conversion: result is in the signed 32-bit range, congruent to the input modulo 2^32, and the input itself when it fits |
| ProvisionerNaming.DeriveNames | provisioner/provisioner.go:342-350 | the zvol name ends in "/" + PV name; the iSCSI name is prefix + PV name + suffix; the disk is "zvol/pool/zvol", which is "zvol/" + parent + "/" + PV name when the parent already starts with its pool |
| ProvisionerNaming.Portals | provisioner/provisioner.go:513-516 | no portals exactly for an empty setting; otherwise comma-free pieces whose comma-join is the setting |
| GoStrings.TrimPrefix | provisioner/provisioner.go:348 | with the prefix present, prefix + result is the input; otherwise the input is unchanged |
| GoStrings.Contains | provisioner/provisioner.go:661 | true exactly when the substring occurs at some position |
| GoStrings.JoinSplit | provisioner/provisioner.go:515 | joining the pieces of a split gives the string back |
| GoStrings.SplitAppend | provisioner/provisioner.go:515 | splitting at a separator splits each side independently |
| GoStrings.SplitJoin | provisioner/provisioner.go:515 | splitting a join of separator-free pieces gives the pieces back |
| Strconv.AtoiItoa | provisioner/provisioner.go:568-576 | Atoi reads back every ID that Itoa wrote into an annotation |
| FilePath.JoinSplitPath | freenas/dataset.go:76-86 | splitting a path and joining the halves gives the cleaned path (the empty path stays empty) |
| FilePath.PlainSplitJoin | freenas/dataset.go:76-86 | for a plain path (no empty, "." or ".." element) split-then-join is the identity |
| Volume.Annotation | provisioner/provisioner.go:578-581 | Go's map read: the stored value for a present key, "" for a missing one |
| Appliance.FirstMatch | freenas/target.go:71-77 | the first listed item satisfying the key test, and none only when no item does |
| FreenasDataset.String | freenas/dataset.go:31-33 | the pool and name joined by "/" for plain components; "" for an empty dataset |
| FreenasDataset.CopyFrom | freenas/dataset.go:36-52 | every field is taken from the record copied, and an error is always reported |
| FreenasDataset.Get | freenas/dataset.go:55-72 | one GET of the dataset by name; success exactly on 200, then the decoded record; otherwise the dataset is unchanged |
| FreenasDataset.GetReports | freenas/dataset.go:55-72 | a failed read reports the appliance's message, or the transport's reason when nothing came back |
| FreenasDataset.Create | freenas/dataset.go:75-101 | posts the last path element to the parent path; success exactly on 201; on error the name is restored as the join of the two halves |
| FreenasDataset.CreateRestoresName | freenas/dataset.go:76-86 | the parent path followed by the posted name is the full name, with no "/" in the posted name; a failed create leaves the name cleaned, and unchanged for a plain path |
| FreenasDataset.Delete | freenas/dataset.go:104-118 | one DELETE by name; success exactly on 204 |
| FreenasZvol.CopyFrom | freenas/zvol.go:34-51 | every field but the dataset is taken from the record copied; an error is always reported |
| FreenasZvol.Get | freenas/zvol.go:54-66 | one GET by pool and name; any reply counts as success and the dataset is kept |
| FreenasZvol.Create | freenas/zvol.go:69-88 | one POST to the pool's zvol collection; success exactly on 202; the zvol is never updated from the reply |
| FreenasZvol.Delete | freenas/zvol.go:91-110 | one cascading DELETE; no reply panics on the nil response; success exactly on 204 |
| FreenasTarget.CopyFrom | freenas/target.go:25-35 | the result equals the record copied; an error is always reported |
| FreenasTarget.Get | freenas/target.go:38-82 | by ID when positive; else by name over the listing, adopting the first target of that name and failing exactly when none has it; else nothing is sent |
| FreenasTarget.GetByName | freenas/target.go:85-97 | fetches by ID despite its name and returns no status on success |
| FreenasTarget.Create | freenas/target.go:100-118 | one POST; success exactly on 201, then the returned record; otherwise unchanged |
| FreenasTarget.CreateReports | freenas/target.go:104-112 | a refused create reports the appliance's message, or the transport's reason when nothing came back |
| FreenasTarget.Delete | freenas/target.go:121-135 | one DELETE by ID; success exactly on 204; a missing reply leaves no status |
| FreenasTarget.DeleteReports | freenas/target.go:121-135 | a refused delete reports the appliance's message, or the transport's reason when nothing came back |
| FreenasTargetGroup.CopyFrom | freenas/target_group.go:29-42 | the result equals the record copied; an error is always reported |
| FreenasTargetGroup.Get | freenas/target_group.go:45-89 | by ID when positive; else by (target, portal group) over the listing when both are positive, failing exactly when no group has that key; else nothing is sent |
| FreenasTargetGroup.Create | freenas/target_group.go:92-109 | one POST; success exactly on 201, then the returned record |
| FreenasTargetGroup.CreateReports | freenas/target_group.go:95-103 | a refused create reports the appliance's message, or the transport's reason when nothing came back |
| FreenasTargetGroup.Delete | freenas/target_group.go:112-119 | one DELETE by ID; any reply counts as success |
| FreenasExtent.CopyFrom | freenas/extent.go:39-61 | every field but the disk is taken from the record copied; an error is always reported |
| FreenasExtent.Get | freenas/extent.go:64-107 | by ID when positive; else by name over the listing, failing exactly when no extent has the name; else nothing is sent |
| FreenasExtent.Create | freenas/extent.go:110-127 | one POST; success exactly on 201, then the returned record with the disk kept |
| FreenasExtent.CreateReports | freenas/extent.go:113-121 | a refused create reports the appliance's message, or the transport's reason when nothing came back |
| FreenasExtent.Delete | freenas/extent.go:130-143 | one DELETE by ID; panics exactly when there is no reply; success exactly on 204 |
| FreenasExtent.DeleteReports | freenas/extent.go:130-143 | a refused delete that got a reply reports the appliance's message |
| FreenasTargetToExtent.FindKey | freenas/target_to_extent.go:70-76 | the scan finds the first item of the same (target, extent, LUN), panics at an earlier same-pair item with a nil LUN, and misses only when every item is skipped |
| FreenasTargetToExtent.CopyFrom | freenas/target_to_extent.go:25-35 | the result equals the record copied; an error is always reported |
| FreenasTargetToExtent.Get | freenas/target_to_extent.go:38-81 | by ID when positive. Otherwise, with a usable key, by (target, extent, LUN) over the listing, panicking on its own nil LUN without sending. Without a usable key it answers NotFound and sends nothing. An adopted mapping is listed and has the same key |
| FreenasTargetToExtent.GetByKey | freenas/target_to_extent.go:38-81 | a lookup by (target, extent, LUN) answers as the listing scan does: the first item of that key is adopted with status 200, no such item gives the not-found error, an earlier same-pair item with a nil LUN panics; a status other than 200 leaves the mapping unchanged and reports that status and message |
| FreenasTargetToExtent.Create | freenas/target_to_extent.go:84-102 | one POST; success exactly on 201, then the returned record |
| FreenasTargetToExtent.CreateReports | freenas/target_to_extent.go:88-96 | a refused create reports the appliance's message, or the transport's reason when nothing came back |
| FreenasTargetToExtent.Delete | freenas/target_to_extent.go:105-112 | one DELETE by ID; any reply counts as success |
| SagaTrace.UndoValues | provisioner/provisioner.go:389-508 | the rollback list for each failing create: nothing for the zvol, then zvol; target, zvol; group, target, zvol; extent, group, target, zvol |
| SagaTrace.ExtentPostsSteady | provisioner/provisioner.go:454-480 | requests that post no extent leave the count of extent posts unchanged |
| ProvisionSaga.DeleteOne | provisioner/provisioner.go:399 | one DELETE of the saga's resource of that kind; only the zvol and extent deletes panic, and only when there is no reply |
| ProvisionSaga.Unwind | provisioner/provisioner.go:495-498 | deletes the listed resources in order, one request each, stopping only at a nil-response panic |
| ProvisionSaga.Abort | provisioner/provisioner.go:470-473 | a hard failure issues only deletes, exactly the rollback list of the failing kind, and reports the failure against that kind |
| ProvisionSaga.UnwindDeletesOwn | provisioner/provisioner.go:495-498 | when no delete panics, the last requests delete the listed resources in order, each the one the saga holds: the zvol by its pool and name, the target, group and extent by their IDs |
| ProvisionSaga.AbortDeletesOwn | provisioner/provisioner.go:389-508 | a reported failure of kind k ends with one delete per entry of k's rollback list, each naming the resource the saga holds |
| ProvisionSaga.Start | provisioner/provisioner.go:302-358 | nothing is sent exactly when the access modes are refused; then the configuration read and the parent-dataset read; a too-long disk fails after both; going on carries the parent dataset decoded from the 200 reply to the second request and the names derived from it |
| ProvisionSaga.ProvisionChecksDiskLength | provisioner/provisioner.go:342-354 | a derived disk path longer than 63 characters fails with that path, after exactly the configuration read and the parent-dataset read |
| ProvisionSaga.NewZvol | provisioner/provisioner.go:368-378 | the zvol is named after the volume and placed in the parent dataset; its comment is the prefix of "cluster/namespace/name" of length min(length, 1024) |
| ProvisionSaga.NewTarget | provisioner/provisioner.go:390-394 | a new target named by the iSCSI name in mode "iscsi" |
| ProvisionSaga.NewGroup | provisioner/provisioner.go:407-414 | a new group for the saga's target and the configured portal group, digest "Auto" |
| ProvisionSaga.NewExtent | provisioner/provisioner.go:436-448 | a new "Disk" extent named by the iSCSI name on the derived disk, read-only as configured; its comment is the prefix of "namespace/name" of length min(length, 120) |
| ProvisionSaga.NewMapping | provisioner/provisioner.go:483-488 | a new mapping of the saga's extent into its target at LUN 0 |
| ProvisionSaga.ZvolSettles | provisioner/provisioner.go:379-387 | the zvol step undoes nothing on failure, posts no extent, and goes on with the zvol built for the volume and every other resource unchanged |
| ProvisionSaga.ZvolReplies | provisioner/provisioner.go:379-387 | the step goes on exactly on 202 or a 400 saying the dataset already exists; no reply panics |
| ProvisionSaga.TargetSettles | provisioner/provisioner.go:395-404 | a hard target failure deletes the zvol the saga holds, by its pool and name, and nothing else; going on changes no resource but the target |
| ProvisionSaga.TargetReplies | provisioner/provisioner.go:395-404 | the step goes on exactly on 201 or 409. On 201 it adopts the created target. On 409 it goes on with what the by-name lookup, sent after the POST, leaves, even when the lookup fails. Any other reply stops with the create's message as the failure text. No reply panics |
| ProvisionSaga.GroupSettles | provisioner/provisioner.go:415-432 | a hard group failure deletes the target by the ID the saga holds, then the zvol; going on changes no resource but the group |
| ProvisionSaga.GroupReplies | provisioner/provisioner.go:415-432 | 201 adopts the created group. 409 goes on with group ID 0. On 404 the step goes on exactly when the lookup sent after the POST has no error and status 200, and then with the group that lookup returned, of the same key. Other statuses stop. A failure carries the create's message |
| ProvisionSaga.ExtentSettles | provisioner/provisioner.go:450-480 | a hard extent failure, after any retries, deletes the group, the target and the zvol the saga holds, in that order; going on changes no resource but the extent |
| ProvisionSaga.ExtentPostsOwn | provisioner/provisioner.go:450-480 | the step only appends requests, and every extent it posts is the saga's own |
| ProvisionSaga.ExtentPostsCount | provisioner/provisioner.go:450-480 | the step posts at most one extent per remaining attempt |
| ProvisionSaga.ExtentConflictPosts | provisioner/provisioner.go:457-467 | after a 409 the step posts no further extent, whether the lookup succeeds or not |
| ProvisionSaga.ExtentReplies | provisioner/provisioner.go:455-480 | 201 adopts the created extent with its disk kept. On 409 the step goes on exactly when the by-name lookup sent after the POST succeeds, and then with the extent it returned. Another reply retries while attempts remain and otherwise stops. A failure on 409 or on the last attempt carries that create's message. No reply panics |
| ProvisionSaga.ExtentRetriesExhaust | provisioner/provisioner.go:454-480 | when every attempt is refused with a status other than 201 or 409, exactly one post per remaining attempt is made, and the step ends without a volume |
| ProvisionSaga.MappingSettles | provisioner/provisioner.go:489-508 | a hard mapping failure deletes the extent, group, target and zvol the saga holds, in that order; going on changes no resource but the mapping |
| ProvisionSaga.MappingReplies | provisioner/provisioner.go:489-508 | 201 adopts the created mapping. On 409 the step goes on exactly when the lookup sent after the POST answers without error, and then with the listed mapping it returned, of the same target and extent at LUN 0. A panicking lookup crashes the saga. Other statuses stop. A failure carries the create's message |
| ProvisionSaga.StepsSettle | provisioner/provisioner.go:360-508 | across all creating steps: only appends requests, deletes nothing while going on, and each failure rolls back exactly its kind's list |
| ProvisionSaga.StepsFailAt | provisioner/provisioner.go:389-508 | a failure of the creating steps happened in the step of the failing kind, run from the state the steps before it went on with |
| ProvisionSaga.StepsKeep | provisioner/provisioner.go:362-488 | after the first n creating steps went on, the zvol is the one built for the volume and every resource made so far is the one its own step went on with |
| ProvisionSaga.AcceptedStep | provisioner/provisioner.go:379-489 | the accepted step at each position of the creation order makes one request and goes on, the mapping step with the mapping the appliance returned |
| ProvisionSaga.AcceptedSteps | provisioner/provisioner.go:379-489 | when every later create is accepted, the remaining steps go on to the end after one request each, with the returned mapping |
| ProvisionSaga.StepsAccepted | provisioner/provisioner.go:379-489 | on its success status each step makes one request and goes on with the resource the appliance returned |
| ProvisionSaga.ProvisionChecksModes | provisioner/provisioner.go:302-331 | a run sends nothing exactly when the modes are unsupported, and otherwise starts with the iSCSI configuration read |
| ProvisionSaga.ProvisionRollsBack | provisioner/provisioner.go:389-508 | every remote failure ends with exactly the rollback of the failing kind, after a trace without deletes |
| ProvisionSaga.ProvisionDeletesOwn | provisioner/provisioner.go:389-508 | a run failing in a creating step deletes, newest first, exactly the resources the earlier steps went on with: the zvol named after the volume in the pool of the parent-dataset reply, then the target, group and extent as the appliance returned them |
| ProvisionSaga.ProvisionKeepsOnSuccess | provisioner/provisioner.go:302-561 | a run that returns a volume has deleted nothing |
| ProvisionSaga.ProvisionCrashesUnanswered | provisioner/provisioner.go:379-508 | a nil-response panic follows a request that got no reply |
| ProvisionSaga.ProvisionBoundsExtents | provisioner/provisioner.go:434-480 | at most three extent posts per run, each naming a disk path of at most 63 characters |
| ProvisionSaga.ProvisionRefusesLongDisk | provisioner/provisioner.go:350-354 | a disk path over 63 characters fails after the two reads and before any create |
| ProvisionSaga.ProvisionNeverEmptyZvol | provisioner/provisioner.go:356-358 | the empty-zvol-name error can never be returned |
| ProvisionSaga.ProvisionHappyPath | provisioner/provisioner.go:302-561 | when each request is accepted, the run issues seven requests, deletes nothing and returns a volume at LUN 0 |
| ProvisionSaga.Provision | provisioner/provisioner.go:302-562 | the whole run; its contract is stated by ProvisionChecksModes, ProvisionChecksDiskLength, ProvisionRollsBack, ProvisionDeletesOwn, ProvisionKeepsOnSuccess, ProvisionCrashesUnanswered, ProvisionBoundsExtents, ProvisionNeverEmptyZvol and ProvisionHappyPath, and step by step by the Settles and Replies lemmas of the five creating steps |
| ProvisionSaga.ZvolStep | provisioner/provisioner.go:362-387 | the zvol create; stated by ZvolSettles and ZvolReplies |
| ProvisionSaga.TargetStep | provisioner/provisioner.go:389-404 | the target create; stated by TargetSettles, TargetAdoptSettles and TargetReplies; the Replies lemma also states the conflict lookup and the failure text |
| ProvisionSaga.GroupStep | provisioner/provisioner.go:406-432 | the target-group create; stated by GroupSettles, GroupLookupSettles and GroupReplies; the Replies lemma also states the conflict lookup and the failure text |
| ProvisionSaga.ExtentStep | provisioner/provisioner.go:434-480 | the extent create with its retries; stated by ExtentSettles, ExtentPostsOwn, ExtentPostsCount, ExtentConflictPosts, ExtentReplies and ExtentRetriesExhaust; the Replies lemma also states the conflict lookup and the failure text |
| ProvisionSaga.MappingStep | provisioner/provisioner.go:482-508 | the mapping create; stated by MappingSettles, MappingAdoptSettles and MappingReplies; the Replies lemma also states the conflict lookup and the failure text |
| ProvisionSaga.Finish | provisioner/provisioner.go:513-561 | building the volume; stated by FinishAnnotates and AnnotationsRead |
| ProvisionSaga.FinishAnnotates | provisioner/provisioner.go:513-561 | the volume fails only on a nil LUN id; it carries the nine annotation keys, IDs Atoi reads back, IQN = basename + ":" + iSCSI name, the portals split from the setting, read-only as the extent says, and int32 of the LUN |
| ProvisionSaga.AnnotationsRead | provisioner/provisioner.go:524-534 | each annotation holds the value it was written from, and the ID annotations are non-empty |
| Deprovision.FirstMissing | provisioner/provisioner.go:583-601 | reports the first required annotation that is empty or missing, and none exactly when all are present |
| Deprovision.Delete | provisioner/provisioner.go:564-673 | the whole deletion; its contract is stated by DeprovisionValidates, DeprovisionFollowsPlan, DeprovisionSucceeds, DeprovisionBlames, DeprovisionReportsRefusal, DeprovisionStopsAtRefusal, DeprovisionCrashesUnanswered and DeprovisionIdempotent |
| Deprovision.DeprovisionValidates | provisioner/provisioner.go:565-601 | nothing is sent exactly when a required annotation is empty, and that annotation is the one reported |
| Deprovision.DeprovisionFollowsPlan | provisioner/provisioner.go:619-667 | a run issues a prefix of the dataset read, then the target, extent and zvol deletes, the zvol's pool taken from the read |
| Deprovision.DeprovisionSucceeds | provisioner/provisioner.go:619-672 | success exactly when the read answers 200 and each delete answers 204 or 404, or a 400 "dataset does not exist" for the zvol |
| Deprovision.DeprovisionBlames | provisioner/provisioner.go:623-667 | a reported failure names the kind of the last request |
| Deprovision.DeprovisionReportsRefusal | provisioner/provisioner.go:619-667 | a failure after the annotation checks is the appliance's, carrying the text of the last reply |
| Deprovision.DeprovisionStopsAtRefusal | provisioner/provisioner.go:619-667 | Delete fails on the dataset read exactly when that read is not answered 200; every delete before the refused one answered 204 or 404; the refused one did not; a 400 for the zvol is a refusal only without "dataset does not exist" |
| Deprovision.DeprovisionCrashesUnanswered | provisioner/provisioner.go:630-661 | a panic follows a request that got no reply |
| Deprovision.DeprovisionIdempotent | provisioner/provisioner.go:630-667 | with every resource already gone (404 to each delete), Delete succeeds |
| Deprovision.DeprovisionUndoesProvision | provisioner/provisioner.go:524-658 | a volume Provision returned is deleted by the target, extent and zvol that provisioning created |
| Deprovision.DeprovisionNeedsPool | provisioner/provisioner.go:591-593 | a volume whose parent dataset reported no pool is refused before anything is sent |

## Left out

- GetConfig, GetServer and GetSecret (storage-class parameter parsing, secrets, the HTTP server object): the resolved configuration is an input.
- The transport in freenas/server.go (sling, TLS, basic auth): a request and its reply are a step of the scripted link. A transport error is a missing reply. A reply's body arrives already decoded, so decoding failures are not modelled.
- The iSCSI global configuration (freenas/iscsi_config.go): its GET is modelled; the base name it yields is an input.
- The portal, initiator and auth-credential clients, cli/command.go and main.go: Provision and Delete do not call them.
- The volume size: its float rendering in GiB is an opaque input string (floating point).
- Logging (glog) and the 5-second sleep between extent attempts: they have no observable effect here.
- Error texts: an error is the appliance's message or the transport's reason. The wording the client wraps around it, such as struct dumps, is left out. `strings.Contains` tests look at that message.
- Strings are sequences of characters, not bytes. The 63-character disk limit and the truncations therefore count characters.
- ShouldProvision, SupportsBlock and BytesToString: trivial and unused by the modelled operations.

Behaviour of the Go code the model keeps:

- The disk-path length check comes after the configuration and parent-dataset reads.
- A target group that already exists (409) is kept without a lookup. Its ID stays 0, and so does the `targetGroupId` annotation.
- A rollback also deletes resources that were adopted rather than created.
- The extent is retried on any error reply other than 409. A create with no reply panics instead, because the Go code reads the status of a nil response.
- Delete takes the zvol's pool from the parent-dataset reply, not from the `pool` annotation, which it only checks for emptiness.
- The LUN of the returned volume is the LUN id the appliance echoed for the mapping, converted to int32.
