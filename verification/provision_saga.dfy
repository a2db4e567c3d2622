/** The provision saga (Provision in provisioner/provisioner.go): check the
    access modes, read the appliance's iSCSI configuration and the parent
    dataset, derive and check the names, then create the zvol, target,
    target group, extent and LUN mapping in that order, adopting what
    already exists and rolling back on a hard failure, and finally build the
    PersistentVolume. */
module ProvisionSaga {
  import opened FreenasTypes
  import opened GoStrings
  import opened Strconv
  import opened Appliance
  import opened ProvisionerNaming
  import opened Volume
  import opened SagaTrace
  import FreenasDataset
  import FreenasZvol
  import FreenasTarget
  import FreenasTargetGroup
  import FreenasExtent
  import FreenasTargetToExtent

  /** The backend's ceiling on the length of an extent's disk path. */
  const MaxDiskNameLength := 63

  /** Extent creation is retried this many times after the first attempt. */
  const ExtentMaxLoops := 2

  const ZvolCommentLength := 1024
  const ExtentCommentLength := 120

  /** The saga's state between steps: the connection, the inputs, what the
      appliance said about the parent dataset, the derived names and the
      resources as the client last saw them. */
  datatype Saga = Saga(
    link: Link,
    identity: string,
    opts: VolumeOptions,
    cfg: Config,
    basename: string,
    parent: Dataset,
    names: Names,
    zvol: Zvol,
    target: Target,
    group: TargetGroup,
    extent: Extent,
    mapping: TargetToExtent)

  /** After a step the saga either goes on or has returned. */
  datatype Progress = Go(s: Saga) | Halt(outcome: Outcome<PersistentVolume>, link: Link)

  function LinkOf(p: Progress): Link
  {
    match p
    case Go(s) => s.link
    case Halt(_, l) => l
  }

  /** `s2` is a later state of the same run as `s1`: inputs, parent dataset
      and names do not change. */
  predicate Continues(s1: Saga, s2: Saga)
  {
    && s2.link.script == s1.link.script
    && s2.identity == s1.identity
    && s2.opts == s1.opts
    && s2.cfg == s1.cfg
    && s2.basename == s1.basename
    && s2.parent == s1.parent
    && s2.names == s1.names
  }

  /** `s2` holds the same resources as `s`, except perhaps the one of kind `k`. */
  predicate KeepsOthers(s: Saga, s2: Saga, k: Kind)
  {
    && (k != ZvolKind ==> s2.zvol == s.zvol)
    && (k != TargetKind ==> s2.target == s.target)
    && (k != GroupKind ==> s2.group == s.group)
    && (k != ExtentKind ==> s2.extent == s.extent)
    && (k != MappingKind ==> s2.mapping == s.mapping)
  }

  /** What every creating step promises: it only adds requests; when it goes
      on it has deleted nothing and changed no resource but its own; it never
      returns a volume itself; a hard failure is reported against `k` after
      rolling back exactly `Undo(k)`, each delete naming the resource the
      step started with; and a nil-response panic follows a request that got
      no reply. */
  predicate Settles(s: Saga, r: Progress, k: Kind)
  {
    && LinkOf(r).script == s.link.script
    && Extends(s.link.trace, LinkOf(r).trace)
    && (r.Go? ==> Continues(s, r.s) && NoDeleteAfter(s.link.trace, r.s.link.trace) && KeepsOthers(s, r.s, k))
    && (r.Halt? ==> !r.outcome.Ok?)
    && (r.Halt? && r.outcome.Failed? ==>
          r.outcome.failure.Remote? && r.outcome.failure.kind == k
          && UnwoundAfter(s.link.trace, r.link.trace, Undo(k))
          && DeletesOwn(s, r.link.trace, Undo(k)))
    && (r.Halt? && r.outcome == Crashed(NilResponse) ==> Unanswered(r.link))
  }

  // ---------------------------------------------------------------------
  // Rollback

  /** The resources a failed saga deletes. */
  predicate Undoable(k: Kind)
  {
    k == ZvolKind || k == TargetKind || k == GroupKind || k == ExtentKind
  }

  /** The request that deletes the saga's `k`. */
  function DeleteOp(s: Saga, k: Kind): (op: Op)
    requires Undoable(k)
    ensures op.verb == DELETE && KindOf(op.at) == k
  {
    if k == ZvolKind then Op(DELETE, ZvolItem(s.zvol.dataset.pool, s.zvol.name), Cascade(true))
    else if k == TargetKind then Op(DELETE, TargetItem(s.target.id), NoBody)
    else if k == GroupKind then Op(DELETE, GroupItem(s.group.id), NoBody)
    else Op(DELETE, ExtentItem(s.extent.id), NoBody)
  }

  /** The last `|undo|` requests of `t` delete the saga's own resources of
      the kinds in `undo`, in that order. */
  predicate DeletesOwn(s: Saga, t: seq<Op>, undo: seq<Kind>)
  {
    |undo| <= |t| && forall j :: 0 <= j < |undo| ==> Undoable(undo[j]) && t[|t| - |undo| + j] == DeleteOp(s, undo[j])
  }

  /** Two states holding the same zvol, target and group, and the same extent
      when the extent is among `undo`, delete the same resources. */
  lemma DeletesOwnTransfer(s: Saga, s2: Saga, t: seq<Op>, undo: seq<Kind>)
    requires s2.zvol == s.zvol && s2.target == s.target && s2.group == s.group
    requires ExtentKind in undo ==> s2.extent == s.extent
    requires DeletesOwn(s2, t, undo)
    ensures DeletesOwn(s, t, undo)
  {
    forall j | 0 <= j < |undo|
      ensures t[|t| - |undo| + j] == DeleteOp(s, undo[j])
    {
      assert undo[j] == ExtentKind ==> ExtentKind in undo;
    }
  }

  /** Deletes the saga's `k`, ignoring the result; the zvol and extent
      clients panic on a nil response. */
  function DeleteOne(s: Saga, k: Kind): (r: (Option<Fault>, Link))
    requires Undoable(k)
    ensures r.1 == Link(s.link.script, s.link.trace + [DeleteOp(s, k)])
    ensures r.0.Some? <==> (k == ZvolKind || k == ExtentKind) && Next(s.link).NoReply?
    ensures r.0.Some? ==> r.0.value == NilResponse
  {
    if k == ZvolKind then
      var (a, l) := FreenasZvol.Delete(s.zvol, s.link);
      (if a.Panic? then Some(a.fault) else None, l)
    else if k == TargetKind then
      var (_, l) := FreenasTarget.Delete(s.target, s.link);
      (None, l)
    else if k == GroupKind then
      var (_, l) := FreenasTargetGroup.Delete(s.group, s.link);
      (None, l)
    else
      var (a, l) := FreenasExtent.Delete(s.extent, s.link);
      (if a.Panic? then Some(a.fault) else None, l)
  }

  /** Deletes the listed resources in order, one request each, until one
      panics. */
  function Unwind(s: Saga, kinds: seq<Kind>): (r: (Option<Fault>, Link))
    requires forall i :: 0 <= i < |kinds| ==> Undoable(kinds[i])
    ensures r.1.script == s.link.script
    ensures Extends(s.link.trace, r.1.trace)
    ensures forall i :: |s.link.trace| <= i < |r.1.trace| ==> r.1.trace[i].verb == DELETE
    ensures r.0.None? ==> |r.1.trace| == |s.link.trace| + |kinds|
                          && forall j :: 0 <= j < |kinds| ==> r.1.trace[|s.link.trace| + j] == DeleteOp(s, kinds[j])
    ensures r.0.Some? ==> r.0.value == NilResponse && Unanswered(r.1)
    decreases |kinds|
  {
    if |kinds| == 0 then (None, s.link)
    else
      var (fault, l) := DeleteOne(s, kinds[0]);
      if fault.Some? then
        SentUnanswered(s.link, DeleteOp(s, kinds[0]));
        (fault, l)
      else
        var s' := s.(link := l);
        assert forall k | Undoable(k) :: DeleteOp(s', k) == DeleteOp(s, k);
        Unwind(s', kinds[1..])
  }

  /** Everything a failure may have to undo can be deleted. */
  lemma UndoUndoable(k: Kind)
    ensures forall i :: 0 <= i < |Undo(k)| ==> Undoable(Undo(k)[i])
  {
    UndoValues();
  }

  /** A hard failure creating a `k`: rolls back `Undo(k)` and reports the
      failure against `k`, unless a deletion panics. */
  function Abort(s: Saga, k: Kind, text: string): (r: Progress)
    ensures r.Halt? && (r.outcome.Failed? || r.outcome.Crashed?)
    ensures r.link.script == s.link.script
    ensures Extends(s.link.trace, r.link.trace)
    ensures forall i :: |s.link.trace| <= i < |r.link.trace| ==> r.link.trace[i].verb == DELETE
    ensures r.outcome.Failed? ==> r.outcome.failure == Remote(k, text) && UnwoundAfter(s.link.trace, r.link.trace, Undo(k))
    ensures r.outcome.Crashed? ==> r.outcome.fault == NilResponse && Unanswered(r.link)
  {
    UndoUndoable(k);
    var (fault, l) := Unwind(s, Undo(k));
    if fault.Some? then Halt(Crashed(fault.value), l) else Halt(Failed(Remote(k, text)), l)
  }

  /** The deletes of an unwinding that ran to the end name the saga's own
      resources, in the order listed. */
  lemma UnwindDeletesOwn(s: Saga, kinds: seq<Kind>)
    requires forall i :: 0 <= i < |kinds| ==> Undoable(kinds[i])
    ensures var r := Unwind(s, kinds);
            r.0.None? ==> DeletesOwn(s, r.1.trace, kinds)
  {
    var r := Unwind(s, kinds);
    if r.0.None? {
      assert |r.1.trace| - |kinds| == |s.link.trace|;
    }
  }

  /** The deletes of a rollback name the saga's own resources, newest first. */
  lemma AbortDeletesOwn(s: Saga, k: Kind, text: string)
    ensures var r := Abort(s, k, text);
            r.outcome.Failed? ==> DeletesOwn(s, r.link.trace, Undo(k))
  {
    UndoUndoable(k);
    UnwindDeletesOwn(s, Undo(k));
  }

  /** Going on with no deletion settles any step. */
  lemma GoSettles(s: Saga, s2: Saga, k: Kind)
    requires Continues(s, s2) && NoDeleteAfter(s.link.trace, s2.link.trace) && KeepsOthers(s, s2, k)
    ensures Settles(s, Go(s2), k)
  {
  }

  /** A panic on a nil response right after the request that got none
      settles any step. */
  lemma CrashSettles(s: Saga, l: Link, k: Kind)
    requires l.script == s.link.script && Extends(s.link.trace, l.trace) && Unanswered(l)
    ensures Settles(s, Halt(Crashed(NilResponse), l), k)
  {
  }

  /** Rolling back `Undo(k)` after requests that delete nothing settles the
      step creating `k`. */
  lemma AbortSettles(s: Saga, s2: Saga, k: Kind, text: string)
    requires s2 == s.(link := s2.link)
    requires s2.link.script == s.link.script && NoDeleteAfter(s.link.trace, s2.link.trace)
    ensures Settles(s, Abort(s2, k, text), k)
  {
    var r := Abort(s2, k, text);
    ExtendsTrans(s.link.trace, s2.link.trace, r.link.trace);
    if r.outcome.Failed? {
      UnwoundAfterQuiet(s.link.trace, s2.link.trace, r.link.trace, Undo(k));
      AbortDeletesOwn(s2, k, text);
      DeletesOwnTransfer(s, s2, r.link.trace, Undo(k));
    }
  }

  /** A retry after requests that delete nothing settles like the retry. */
  lemma RetrySettles(s: Saga, s2: Saga, r: Progress)
    requires s2 == s.(link := s2.link)
    requires Continues(s, s2) && NoDeleteAfter(s.link.trace, s2.link.trace)
    requires Settles(s2, r, ExtentKind)
    ensures Settles(s, r, ExtentKind)
  {
    ExtendsTrans(s.link.trace, s2.link.trace, LinkOf(r).trace);
    if r.Halt? && r.outcome.Failed? {
      UnwoundAfterQuiet(s.link.trace, s2.link.trace, r.link.trace, Undo(ExtentKind));
      DeletesOwnTransfer(s, s2, r.link.trace, Undo(ExtentKind));
    }
  }

  // ---------------------------------------------------------------------
  // Steps

  /** Access modes, the appliance's iSCSI configuration, the parent dataset
      and the names, in that order; nothing is created. */
  function Start(identity: string, opts: VolumeOptions, cfg: Config, basename: string, script: seq<Reply>): (r: Progress)
    ensures LinkOf(r).script == script
    ensures LinkOf(r).trace == [] <==> !AccessModesContainedInAll(SupportedAccessModes, opts.claim.accessModes)
    ensures LinkOf(r).trace == [] ==> r == Halt(Failed(InvalidAccessModes), Link(script, []))
    ensures LinkOf(r).trace != [] ==>
              LinkOf(r).trace[0] == Op(GET, GlobalConfiguration, NoBody)
              && (|LinkOf(r).trace| == 1 || LinkOf(r).trace[1] == Op(GET, DatasetItem(cfg.datasetParentName), NoBody))
    ensures |LinkOf(r).trace| <= 2 && NoDelete(LinkOf(r).trace)
    ensures forall i :: 0 <= i < |LinkOf(r).trace| ==> LinkOf(r).trace[i].verb == GET
    ensures r.Halt? ==> !r.outcome.Ok? && !r.outcome.Crashed?
    ensures r.Halt? && r.outcome.Failed? && r.outcome.failure.Remote? ==> Undo(r.outcome.failure.kind) == []
    ensures r.Halt? && r.outcome.Failed? && r.outcome.failure.DiskNameTooLong? ==>
              |r.outcome.failure.disk| > MaxDiskNameLength && |r.link.trace| == 2
    ensures r.Go? ==>
              && r.s.identity == identity && r.s.opts == opts && r.s.cfg == cfg && r.s.basename == basename
              && |r.s.link.trace| == 2
              && |script| >= 2 && script[1].Replied? && script[1].status == 200
              && r.s.parent == FreenasDataset.Decoded(script[1])
              && r.s.names == DeriveNames(r.s.parent, opts.pvName, cfg.iscsiNamePrefix, cfg.iscsiNameSuffix)
              && |r.s.names.disk| <= MaxDiskNameLength
  {
    var l0 := Link(script, []);
    if !AccessModesContainedInAll(SupportedAccessModes, opts.claim.accessModes) then
      Halt(Failed(InvalidAccessModes), l0)
    else
      UndoValues();
      var (reply, l1) := Send(l0, Op(GET, GlobalConfiguration, NoBody));
      if reply.NoReply? then Halt(Failed(Remote(GlobalConfigKind, reply.reason)), l1)
      else
        var (a, l2) := FreenasDataset.Get(ZeroDataset.(name := cfg.datasetParentName), l1);
        if a.err.Some? then Halt(Failed(Remote(DatasetKind, a.err.value)), l2)
        else
          var parent := a.value;
          var names := DeriveNames(parent, opts.pvName, cfg.iscsiNamePrefix, cfg.iscsiNameSuffix);
          if |names.disk| > MaxDiskNameLength then Halt(Failed(DiskNameTooLong(names.disk)), l2)
          else if |names.zvol| < 1 then Halt(Failed(EmptyZvolName), l2)
          else Go(Saga(l2, identity, opts, cfg, basename, parent, names,
                       ZeroZvol, ZeroTarget, ZeroTargetGroup, ZeroExtent, ZeroTargetToExtent))
  }

  /** The zvol the saga creates below the parent dataset. */
  function NewZvol(s: Saga): (z: Zvol)
    ensures z.name == s.names.zvol && z.dataset == s.parent
    ensures var full := s.opts.claim.clusterName + "/" + s.opts.claim.namespace + "/" + s.opts.claim.name;
            z.comments <= full && |z.comments| == if |full| <= ZvolCommentLength then |full| else ZvolCommentLength
  {
    var c := s.opts.claim;
    Zvol(s.names.zvol, 0, TruncateString(c.clusterName + "/" + c.namespace + "/" + c.name, ZvolCommentLength),
         s.cfg.zvolCompression, s.cfg.zvolDedup, 0, 0, c.volsize, s.cfg.zvolSparse, s.cfg.zvolForce,
         s.cfg.zvolBlocksize, s.parent)
  }

  /** The target named after the volume. */
  function NewTarget(s: Saga): (t: Target)
    ensures t.id == 0 && t.name == s.names.iscsi && t.mode == "iscsi"
  {
    Target(0, s.names.iscsi, "", "iscsi")
  }

  /** The target group binding the target to the configured groups. */
  function NewGroup(s: Saga): (g: TargetGroup)
    ensures g.id == 0 && g.target == s.target.id && g.initialdigest == "Auto"
    ensures g.portalgroup == s.cfg.targetGroupPortalgroup
  {
    TargetGroup(0, s.target.id, s.cfg.targetGroupAuthgroup, s.cfg.targetGroupAuthtype, "Auto",
                s.cfg.targetGroupInitiatorgroup, s.cfg.targetGroupPortalgroup)
  }

  /** The extent exposing the zvol's device. */
  function NewExtent(s: Saga): (e: Extent)
    ensures e.id == 0 && e.name == s.names.iscsi && e.disk == s.names.disk && e.extentType == "Disk"
    ensures e.ro == s.cfg.extentReadOnly
    ensures var full := s.opts.claim.namespace + "/" + s.opts.claim.name;
            e.comment <= full && |e.comment| == if |full| <= ExtentCommentLength then |full| else ExtentCommentLength
  {
    var c := s.opts.claim;
    Extent(0, s.cfg.extentAvailThreshold, s.cfg.extentBlocksize,
           TruncateString(c.namespace + "/" + c.name, ExtentCommentLength), "", s.cfg.extentInsecureTpc, false, "",
           s.names.iscsi, "", s.names.disk, s.cfg.extentDisablePhysicalBlocksize, s.cfg.extentReadOnly,
           s.cfg.extentRpm, "", "Disk", s.cfg.extentXen)
  }

  /** The mapping of the extent into the target at LUN 0. */
  function NewMapping(s: Saga): (m: TargetToExtent)
    ensures m.id == 0 && m.lunid == Some(0) && m.target == s.target.id && m.extent == s.extent.id
  {
    TargetToExtent(0, s.extent.id, Some(0), s.target.id)
  }

  const ZvolExists := "dataset already exists"

  /** Creates the zvol. A 400 saying the dataset already exists is taken as
      success; any other error returns at once, as nothing is to be undone. */
  function ZvolStep(s: Saga): Progress
  {
    var z := NewZvol(s);
    var (a, l) := FreenasZvol.Create(z, s.link);
    if a.err.None? then Go(s.(link := l, zvol := z))
    else if a.status.None? then Halt(Crashed(NilResponse), l)
    else if a.status.value == 400 && Contains(a.err.value, ZvolExists) then Go(s.(link := l, zvol := z))
    else Halt(Failed(Remote(ZvolKind, a.err.value)), l)
  }

  /** Creates the target. On 409 the existing target is looked up by name
      and adopted if found; the lookup's failure is ignored. Any other error
      deletes the zvol. */
  function TargetStep(s: Saga): Progress
  {
    var (a, l) := FreenasTarget.Create(NewTarget(s), s.link);
    if a.err.None? then Go(s.(link := l, target := a.value))
    else if a.status.None? then Halt(Crashed(NilResponse), l)
    else if a.status.value != 409 then Abort(s.(link := l), TargetKind, a.err.value)
    else
      var (g, l') := FreenasTarget.Get(a.value, l);
      Go(s.(link := l', target := g.value))
  }

  /** Creates the target group for the target. On 404 the group is looked up
      by (target, portal group) and the saga goes on only if that answers
      200; on 409 it goes on without a lookup; any other error deletes the
      target and the zvol. */
  function GroupStep(s: Saga): Progress
  {
    var (a, l) := FreenasTargetGroup.Create(NewGroup(s), s.link);
    if a.err.None? then Go(s.(link := l, group := a.value))
    else if a.status.None? then Halt(Crashed(NilResponse), l)
    else if a.status.value == 404 then
      var (g, l') := FreenasTargetGroup.Get(a.value, l);
      if g.err.Some? || g.status.value != 200 then
        Abort(s.(link := l'), GroupKind, a.err.value)
      else Go(s.(link := l', group := g.value))
    else if a.status.value != 409 then Abort(s.(link := l), GroupKind, a.err.value)
    else Go(s.(link := l, group := a.value))
  }

  /** Creates `s.extent`, whose zvol may not be ready yet. On 409 the extent
      is looked up by name and adopted, or the earlier resources are rolled
      back if the lookup fails. Any other error is retried until
      `ExtentMaxLoops` retries are spent, then rolled back. */
  function ExtentStep(s: Saga, attempt: nat): Progress
    requires attempt <= ExtentMaxLoops
    decreases ExtentMaxLoops - attempt
  {
    var (a, l) := FreenasExtent.Create(s.extent, s.link);
    if a.err.None? then Go(s.(link := l, extent := a.value))
    else if a.status.None? then Halt(Crashed(NilResponse), l)
    else if a.status.value == 409 then
      var (g, l') := FreenasExtent.Get(a.value, l);
      if g.err.Some? then Abort(s.(link := l'), ExtentKind, a.err.value)
      else Go(s.(link := l', extent := g.value))
    else if attempt == ExtentMaxLoops then
      Abort(s.(link := l), ExtentKind, a.err.value)
    else
      ExtentStep(s.(link := l), attempt + 1)
  }

  /** Maps the extent into the target at LUN 0. On 409 the mapping is looked
      up by (target, extent, LUN) and adopted, or the earlier resources are
      rolled back if the lookup fails; any other error rolls back too. */
  function MappingStep(s: Saga): Progress
  {
    var (a, l) := FreenasTargetToExtent.Create(NewMapping(s), s.link);
    if a.err.None? then Go(s.(link := l, mapping := a.value))
    else if a.status.None? then Halt(Crashed(NilResponse), l)
    else if a.status.value == 409 then
      var (g, l') := FreenasTargetToExtent.Get(a.value, l);
      if g.Panic? then Halt(Crashed(g.fault), l')
      else if g.err.Some? then
        Abort(s.(link := l'), MappingKind, a.err.value)
      else Go(s.(link := l', mapping := g.value))
    else Abort(s.(link := l), MappingKind, a.err.value)
  }

  // ---------------------------------------------------------------------
  // Each step settles

  /** The zvol step rolls nothing back and posts no extent. */
  lemma ZvolSettles(s: Saga)
    ensures Settles(s, ZvolStep(s), ZvolKind)
    ensures NoExtentPostAfter(s.link.trace, LinkOf(ZvolStep(s)).trace)
    ensures ZvolStep(s).Go? ==> ZvolStep(s).s.zvol == NewZvol(s)
  {
    var z := NewZvol(s);
    SentUnanswered(s.link, Op(POST, ZvolCollection(z.dataset.pool), ZvolBody(z)));
  }

  /** The target step rolls back the zvol and posts no extent. */
  lemma TargetSettles(s: Saga)
    ensures Settles(s, TargetStep(s), TargetKind)
    ensures NoExtentPostAfter(s.link.trace, LinkOf(TargetStep(s)).trace)
  {
    var (a, l) := FreenasTarget.Create(NewTarget(s), s.link);
    SentUnanswered(s.link, Op(POST, TargetCollection, TargetBody(NewTarget(s))));
    if a.err.None? {
      GoSettles(s, s.(link := l, target := a.value), TargetKind);
    } else if a.status.None? {
      CrashSettles(s, l, TargetKind);
    } else if a.status.value != 409 {
      AbortSettles(s, s.(link := l), TargetKind, a.err.value);
    } else {
      TargetAdoptSettles(s);
    }
  }

  /** A conflicting target is looked up and the step goes on. */
  lemma TargetAdoptSettles(s: Saga)
    requires var a := FreenasTarget.Create(NewTarget(s), s.link).0;
             a.err.Some? && a.status == Some(409)
    ensures Settles(s, TargetStep(s), TargetKind)
    ensures NoExtentPostAfter(s.link.trace, LinkOf(TargetStep(s)).trace)
  {
    var (a, l) := FreenasTarget.Create(NewTarget(s), s.link);
    var (g, l') := FreenasTarget.Get(a.value, l);
    GoSettles(s, s.(link := l', target := g.value), TargetKind);
  }

  /** The target-group step rolls back the target and the zvol and posts no
      extent. */
  lemma GroupSettles(s: Saga)
    ensures Settles(s, GroupStep(s), GroupKind)
    ensures NoExtentPostAfter(s.link.trace, LinkOf(GroupStep(s)).trace)
  {
    var (a, l) := FreenasTargetGroup.Create(NewGroup(s), s.link);
    SentUnanswered(s.link, Op(POST, GroupCollection, GroupBody(NewGroup(s))));
    if a.err.None? {
      GoSettles(s, s.(link := l, group := a.value), GroupKind);
    } else if a.status.None? {
      CrashSettles(s, l, GroupKind);
    } else if a.status.value == 404 {
      GroupLookupSettles(s);
    } else if a.status.value != 409 {
      AbortSettles(s, s.(link := l), GroupKind, a.err.value);
    } else {
      GoSettles(s, s.(link := l, group := a.value), GroupKind);
    }
  }

  /** A target group the appliance says is missing is looked up; the step
      settles whatever the lookup says. */
  lemma GroupLookupSettles(s: Saga)
    requires var a := FreenasTargetGroup.Create(NewGroup(s), s.link).0;
             a.err.Some? && a.status == Some(404)
    ensures Settles(s, GroupStep(s), GroupKind)
    ensures NoExtentPostAfter(s.link.trace, LinkOf(GroupStep(s)).trace)
  {
    var (a, l) := FreenasTargetGroup.Create(NewGroup(s), s.link);
    var (g, l') := FreenasTargetGroup.Get(a.value, l);
    assert a.value.id == 0;
    assert l'.trace == l.trace || l'.trace == l.trace + [Op(GET, GroupCollection, NoBody)];
    assert NoDeleteAfter(s.link.trace, l'.trace) && NoExtentPostAfter(s.link.trace, l'.trace);
    if g.err.Some? || g.status.value != 200 {
      AbortSettles(s, s.(link := l'), GroupKind, a.err.value);
    } else {
      GoSettles(s, s.(link := l', group := g.value), GroupKind);
    }
  }

  /** The extent step rolls back the target group, the target and the zvol. */
  lemma {:induction false} ExtentSettles(s: Saga, attempt: nat)
    requires attempt <= ExtentMaxLoops
    ensures Settles(s, ExtentStep(s, attempt), ExtentKind)
    decreases ExtentMaxLoops - attempt
  {
    var (a, l) := FreenasExtent.Create(s.extent, s.link);
    if a.err.Some? && a.status.Some? && a.status.value != 409 && attempt < ExtentMaxLoops {
      ExtentSettles(s.(link := l), attempt + 1);
      RetrySettles(s, s.(link := l), ExtentStep(s.(link := l), attempt + 1));
    } else {
      ExtentOnceSettles(s, attempt);
    }
  }

  /** The extent step settles when it does not retry. */
  lemma ExtentOnceSettles(s: Saga, attempt: nat)
    requires attempt <= ExtentMaxLoops
    requires var a := FreenasExtent.Create(s.extent, s.link).0;
             !(a.err.Some? && a.status.Some? && a.status.value != 409 && attempt < ExtentMaxLoops)
    ensures Settles(s, ExtentStep(s, attempt), ExtentKind)
  {
    var (a, l) := FreenasExtent.Create(s.extent, s.link);
    SentUnanswered(s.link, Op(POST, ExtentCollection, ExtentBody(s.extent)));
    if a.err.None? {
      GoSettles(s, s.(link := l, extent := a.value), ExtentKind);
    } else if a.status.None? {
      CrashSettles(s, l, ExtentKind);
    } else if a.status.value == 409 {
      var (g, l') := FreenasExtent.Get(a.value, l);
      if g.err.Some? {
        AbortSettles(s, s.(link := l'), ExtentKind, a.err.value);
      } else {
        GoSettles(s, s.(link := l', extent := g.value), ExtentKind);
      }
    } else {
      AbortSettles(s, s.(link := l), ExtentKind, a.err.value);
    }
  }

  /** Every extent the extent step posts is `s.extent`. */
  lemma {:induction false} ExtentPostsOwn(s: Saga, attempt: nat)
    requires attempt <= ExtentMaxLoops
    ensures var t := LinkOf(ExtentStep(s, attempt)).trace;
            && Extends(s.link.trace, t)
            && (forall i :: |s.link.trace| <= i < |t| && IsExtentPost(t[i]) ==> t[i].sent == ExtentBody(s.extent))
    decreases ExtentMaxLoops - attempt
  {
    var (a, l) := FreenasExtent.Create(s.extent, s.link);
    if a.err.Some? && a.status.Some? && a.status.value != 409 && attempt < ExtentMaxLoops {
      ExtentPostsOwn(s.(link := l), attempt + 1);
      ExtendsTrans(s.link.trace, l.trace, LinkOf(ExtentStep(s.(link := l), attempt + 1)).trace);
    } else {
      ExtentOncePosts(s, attempt);
    }
  }

  /** The extent step posts at most one extent per remaining attempt. */
  lemma {:induction false} ExtentPostsCount(s: Saga, attempt: nat)
    requires attempt <= ExtentMaxLoops
    ensures ExtentPosts(LinkOf(ExtentStep(s, attempt)).trace) <= ExtentPosts(s.link.trace) + (ExtentMaxLoops + 1 - attempt)
    decreases ExtentMaxLoops - attempt
  {
    var op := Op(POST, ExtentCollection, ExtentBody(s.extent));
    var (a, l) := FreenasExtent.Create(s.extent, s.link);
    ExtentPostsAppend(s.link.trace, op);
    if a.err.Some? && a.status.Some? && a.status.value != 409 && attempt < ExtentMaxLoops {
      ExtentPostsCount(s.(link := l), attempt + 1);
    } else {
      ExtentOncePosts(s, attempt);
      ExtentPostsSteady(l.trace, LinkOf(ExtentStep(s, attempt)).trace);
    }
  }

  /** Past its one post, a non-retrying extent step posts no extent. */
  lemma ExtentOncePosts(s: Saga, attempt: nat)
    requires attempt <= ExtentMaxLoops
    requires var a := FreenasExtent.Create(s.extent, s.link).0;
             !(a.err.Some? && a.status.Some? && a.status.value != 409 && attempt < ExtentMaxLoops)
    ensures var l := FreenasExtent.Create(s.extent, s.link).1;
            NoExtentPostAfter(l.trace, LinkOf(ExtentStep(s, attempt)).trace)
  {
    var (a, l) := FreenasExtent.Create(s.extent, s.link);
    var r := ExtentStep(s, attempt);
    if a.err.None? {
      assert r == Go(s.(link := l, extent := a.value));
    } else if a.status.None? {
      assert r == Halt(Crashed(NilResponse), l);
    } else if a.status.value == 409 {
      ExtentConflictPosts(s, attempt);
    } else {
      assert r == Abort(s.(link := l), ExtentKind, a.err.value);
    }
  }

  /** A conflicting extent is looked up; past its post the step posts no
      extent. */
  lemma ExtentConflictPosts(s: Saga, attempt: nat)
    requires attempt <= ExtentMaxLoops
    requires var a := FreenasExtent.Create(s.extent, s.link).0;
             a.err.Some? && a.status == Some(409)
    ensures var l := FreenasExtent.Create(s.extent, s.link).1;
            NoExtentPostAfter(l.trace, LinkOf(ExtentStep(s, attempt)).trace)
  {
    var (a, l) := FreenasExtent.Create(s.extent, s.link);
    var (g, l') := FreenasExtent.Get(a.value, l);
    assert NoExtentPostAfter(l.trace, l'.trace);
    if g.err.Some? {
      var r := Abort(s.(link := l'), ExtentKind, a.err.value);
      assert ExtentStep(s, attempt) == r;
      assert NoExtentPostAfter(l'.trace, r.link.trace);
    } else {
      assert ExtentStep(s, attempt) == Go(s.(link := l', extent := g.value));
    }
  }

  /** The mapping step rolls back the extent, the target group, the target
      and the zvol, and posts no extent. */
  lemma MappingSettles(s: Saga)
    ensures Settles(s, MappingStep(s), MappingKind)
    ensures NoExtentPostAfter(s.link.trace, LinkOf(MappingStep(s)).trace)
  {
    var (a, l) := FreenasTargetToExtent.Create(NewMapping(s), s.link);
    SentUnanswered(s.link, Op(POST, MappingCollection, MappingBody(NewMapping(s))));
    if a.err.None? {
      GoSettles(s, s.(link := l, mapping := a.value), MappingKind);
    } else if a.status.None? {
      CrashSettles(s, l, MappingKind);
    } else if a.status.value == 409 {
      MappingAdoptSettles(s);
    } else {
      AbortSettles(s, s.(link := l), MappingKind, a.err.value);
    }
  }

  /** A conflicting mapping is looked up; the step settles whatever the
      lookup says. */
  lemma MappingAdoptSettles(s: Saga)
    requires var a := FreenasTargetToExtent.Create(NewMapping(s), s.link).0;
             a.err.Some? && a.status == Some(409)
    ensures Settles(s, MappingStep(s), MappingKind)
    ensures NoExtentPostAfter(s.link.trace, LinkOf(MappingStep(s)).trace)
  {
    var (a, l) := FreenasTargetToExtent.Create(NewMapping(s), s.link);
    var (g, l') := FreenasTargetToExtent.Get(a.value, l);
    assert NoDeleteAfter(s.link.trace, l'.trace) && NoExtentPostAfter(s.link.trace, l'.trace);
    if g.Panic? {
      assert MappingStep(s) == Halt(Crashed(g.fault), l');
    } else if g.err.Some? {
      assert MappingStep(s) == Abort(s.(link := l'), MappingKind, a.err.value);
      AbortSettles(s, s.(link := l'), MappingKind, a.err.value);
    } else {
      assert MappingStep(s) == Go(s.(link := l', mapping := g.value));
      GoSettles(s, s.(link := l', mapping := g.value), MappingKind);
    }
  }

  // ---------------------------------------------------------------------
  // How each step answers the appliance

  /** The zvol: 202 goes on, and so does a 400 saying the dataset already
      exists; any other status fails, and no reply panics. */
  lemma ZvolReplies(s: Saga)
    ensures var r := ZvolStep(s);
            && (r.Go? <==>
                  Next(s.link).Replied? && (Next(s.link).status == 202 ||
                  (Next(s.link).status == 400 && Contains(Next(s.link).message, ZvolExists))))
            && (Next(s.link).NoReply? ==> r.Halt? && r.outcome == Crashed(NilResponse))
            && (r.Halt? && Next(s.link).Replied? ==> r.outcome == Failed(Remote(ZvolKind, Next(s.link).message)))
  {
  }

  /** The target: 201 adopts the created target; 409 goes on with whatever
      the lookup by name leaves in the target, the one listed under that
      name or else the target as posted; any other status ends the saga
      with the create's error text, and no reply panics. */
  lemma TargetReplies(s: Saga)
    ensures var r := TargetStep(s);
            var c := FreenasTarget.Create(NewTarget(s), s.link);
            && (r.Go? <==> Next(s.link).Replied? && (Next(s.link).status == 201 || Next(s.link).status == 409))
            && (Next(s.link).Replied? && Next(s.link).status == 201 ==> r.s.target == FreenasTarget.Decoded(Next(s.link)))
            && (Next(s.link).Replied? && Next(s.link).status == 409 ==>
                  var g := FreenasTarget.Get(NewTarget(s), c.1);
                  r.s.target == g.0.value && r.s.link == g.1 && r.s.target.name == s.names.iscsi)
            && (Next(s.link).Replied? && r.Halt? && r.outcome.Failed? ==>
                  r.outcome.failure == Remote(TargetKind, Next(s.link).message))
            && (Next(s.link).NoReply? ==> r == Halt(Crashed(NilResponse), c.1))
  {
    var (a, l) := FreenasTarget.Create(NewTarget(s), s.link);
    FreenasTarget.CreateReports(NewTarget(s), s.link);
    if a.err.Some? && a.status.Some? && a.status.value != 409 {
      assert TargetStep(s) == Abort(s.(link := l), TargetKind, a.err.value);
    }
  }

  /** The target group: 201 adopts the created group; 409 goes on with the
      group as sent (ID 0) without a lookup; 404 goes on exactly when the
      lookup by (target, portal group) answers 200, and then with the group
      it found; any other status ends the saga with the create's error
      text, and no reply panics. */
  lemma GroupReplies(s: Saga)
    ensures var r := GroupStep(s);
            var c := FreenasTargetGroup.Create(NewGroup(s), s.link);
            && (Next(s.link).Replied? && Next(s.link).status == 201 ==>
                  r.Go? && r.s.group == FreenasTargetGroup.Decoded(Next(s.link)))
            && (Next(s.link).Replied? && Next(s.link).status == 409 ==>
                  r.Go? && r.s.group == NewGroup(s) && r.s.group.id == 0)
            && (Next(s.link).Replied? && Next(s.link).status == 404 ==>
                  var g := FreenasTargetGroup.Get(NewGroup(s), c.1);
                  && (r.Go? <==> g.0.err.None? && g.0.status == Some(200))
                  && (r.Go? ==> r.s.group == g.0.value && r.s.link == g.1
                                && r.s.group.target == s.target.id
                                && r.s.group.portalgroup == s.cfg.targetGroupPortalgroup))
            && (Next(s.link).Replied? && Next(s.link).status !in {201, 404, 409} ==> r.Halt? && !r.outcome.Ok?)
            && (Next(s.link).Replied? && r.Halt? && r.outcome.Failed? ==>
                  r.outcome.failure == Remote(GroupKind, Next(s.link).message))
            && (Next(s.link).NoReply? ==> r.Halt? && r.outcome == Crashed(NilResponse))
  {
    var (a, l) := FreenasTargetGroup.Create(NewGroup(s), s.link);
    FreenasTargetGroup.CreateReports(NewGroup(s), s.link);
    if a.err.Some? && a.status == Some(404) {
      var (g, l') := FreenasTargetGroup.Get(a.value, l);
      assert g.err.None? ==> FreenasTargetGroup.SameKey(g.value, NewGroup(s));
      if g.err.Some? || g.status.value != 200 {
        assert GroupStep(s) == Abort(s.(link := l'), GroupKind, a.err.value);
      } else {
        assert GroupStep(s) == Go(s.(link := l', group := g.value));
      }
    } else if a.err.Some? && a.status.Some? && a.status.value != 409 {
      assert GroupStep(s) == Abort(s.(link := l), GroupKind, a.err.value);
    }
  }

  /** The extent: 201 adopts the created extent (keeping its disk); 409 goes
      on exactly when the lookup by name finds an extent, and then with that
      one; any other error is retried while attempts remain; a failure
      reports the text of the refused create, and no reply panics. */
  lemma ExtentReplies(s: Saga, attempt: nat)
    requires attempt <= ExtentMaxLoops && s.extent.id == 0
    ensures var r := ExtentStep(s, attempt);
            var c := FreenasExtent.Create(s.extent, s.link);
            && (Next(s.link).Replied? && Next(s.link).status == 201 ==>
                  r.Go? && r.s.extent == FreenasExtent.Decoded(Next(s.link)).(disk := s.extent.disk))
            && (Next(s.link).Replied? && Next(s.link).status == 409 ==>
                  var g := FreenasExtent.Get(s.extent, c.1);
                  && (r.Go? <==> g.0.err.None?)
                  && (r.Go? ==> r.s.extent == g.0.value && r.s.link == g.1
                                && r.s.extent.name == s.extent.name && r.s.extent.disk == s.extent.disk))
            && (Next(s.link).Replied? && Next(s.link).status !in {201, 409} ==>
                  if attempt < ExtentMaxLoops then r == ExtentStep(s.(link := c.1), attempt + 1)
                  else r.Halt? && !r.outcome.Ok?)
            && (Next(s.link).Replied? && (Next(s.link).status == 409 || attempt == ExtentMaxLoops)
                && r.Halt? && r.outcome.Failed? ==>
                  r.outcome.failure == Remote(ExtentKind, Next(s.link).message))
            && (Next(s.link).NoReply? ==> r.Halt? && r.outcome == Crashed(NilResponse))
  {
    var (a, l) := FreenasExtent.Create(s.extent, s.link);
    FreenasExtent.CreateReports(s.extent, s.link);
    if a.err.Some? && a.status == Some(409) {
      var (g, l') := FreenasExtent.Get(a.value, l);
      if g.err.Some? {
        assert ExtentStep(s, attempt) == Abort(s.(link := l'), ExtentKind, a.err.value);
      } else {
        assert ExtentStep(s, attempt) == Go(s.(link := l', extent := g.value));
      }
    } else if a.err.Some? && a.status.Some? && attempt == ExtentMaxLoops {
      assert ExtentStep(s, attempt) == Abort(s.(link := l), ExtentKind, a.err.value);
    }
  }

  /** The LUN mapping: 201 adopts the created mapping; 409 goes on exactly
      when the lookup by (target, extent, LUN) adopts a listed mapping, and
      then with that one, and panics when the lookup does; any other status
      ends the saga with the create's error text, and no reply panics. */
  lemma MappingReplies(s: Saga)
    ensures var r := MappingStep(s);
            var c := FreenasTargetToExtent.Create(NewMapping(s), s.link);
            && (Next(s.link).Replied? && Next(s.link).status == 201 ==>
                  r.Go? && r.s.mapping == FreenasTargetToExtent.Decoded(Next(s.link)))
            && (Next(s.link).Replied? && Next(s.link).status == 409 ==>
                  var g := FreenasTargetToExtent.Get(NewMapping(s), c.1);
                  && (r.Go? <==> g.0.Answer? && g.0.err.None?)
                  && (r.Go? ==> r.s.mapping == g.0.value && r.s.link == g.1
                                && r.s.mapping in FreenasTargetToExtent.Listed(Next(c.1))
                                && r.s.mapping.lunid == Some(0) && r.s.mapping.target == s.target.id
                                && r.s.mapping.extent == s.extent.id)
                  && (g.0.Panic? ==> r == Halt(Crashed(g.0.fault), g.1)))
            && (Next(s.link).Replied? && Next(s.link).status !in {201, 409} ==> r.Halt? && !r.outcome.Ok?)
            && (Next(s.link).Replied? && r.Halt? && r.outcome.Failed? ==>
                  r.outcome.failure == Remote(MappingKind, Next(s.link).message))
            && (Next(s.link).NoReply? ==> r.Halt? && r.outcome == Crashed(NilResponse))
  {
    var (a, l) := FreenasTargetToExtent.Create(NewMapping(s), s.link);
    FreenasTargetToExtent.CreateReports(NewMapping(s), s.link);
    if a.err.Some? && a.status == Some(409) {
      var (g, l') := FreenasTargetToExtent.Get(a.value, l);
      if g.Panic? {
        assert MappingStep(s) == Halt(Crashed(g.fault), l');
      } else if g.err.Some? {
        assert MappingStep(s) == Abort(s.(link := l'), MappingKind, a.err.value);
      } else {
        assert MappingStep(s) == Go(s.(link := l', mapping := g.value));
      }
    } else if a.err.Some? && a.status.Some? {
      assert MappingStep(s) == Abort(s.(link := l), MappingKind, a.err.value);
    }
  }

  // ---------------------------------------------------------------------
  // The whole saga

  /** The step creating `k`; the extent step starts from a fresh extent. */
  function Step(k: Kind, s: Saga): Progress
  {
    match k
    case ZvolKind => ZvolStep(s)
    case TargetKind => TargetStep(s)
    case GroupKind => GroupStep(s)
    case ExtentKind => ExtentStep(s.(extent := NewExtent(s)), 0)
    case MappingKind => MappingStep(s)
    case _ => Go(s)
  }

  /** Runs the steps for `kinds` in order, stopping at the first that halts. */
  function Steps(s: Saga, kinds: seq<Kind>): Progress
    decreases |kinds|
  {
    if |kinds| == 0 then Go(s)
    else
      match Step(kinds[0], s)
      case Halt(o, l) => Halt(o, l)
      case Go(s') => Steps(s', kinds[1..])
  }

  /** Every step settles. */
  lemma StepSettles(k: Kind, s: Saga)
    requires k in CreationOrder
    ensures Settles(s, Step(k, s), k)
  {
    match k
    case ZvolKind => ZvolSettles(s);
    case TargetKind => TargetSettles(s);
    case GroupKind => GroupSettles(s);
    case ExtentKind =>
      var s' := s.(extent := NewExtent(s));
      ExtentSettles(s', 0);
      var r := ExtentStep(s', 0);
      if r.Halt? && r.outcome.Failed? {
        UndoValues();
        DeletesOwnTransfer(s, s', r.link.trace, Undo(ExtentKind));
      }
    case MappingKind => MappingSettles(s);
  }

  /** What a run of steps promises: it only adds requests, going on deletes
      nothing, it never returns a volume itself, a hard failure is reported
      against one of the steps' kinds after rolling back exactly what that
      kind undoes, and a nil-response panic follows a request that got no
      reply. */
  predicate SettlesAll(s: Saga, r: Progress, kinds: seq<Kind>)
  {
    && LinkOf(r).script == s.link.script
    && Extends(s.link.trace, LinkOf(r).trace)
    && (r.Go? ==> Continues(s, r.s) && NoDeleteAfter(s.link.trace, r.s.link.trace))
    && (r.Halt? ==> !r.outcome.Ok?)
    && (r.Halt? && r.outcome.Failed? ==>
          r.outcome.failure.Remote? && r.outcome.failure.kind in kinds
          && UnwoundAfter(s.link.trace, r.link.trace, Undo(r.outcome.failure.kind)))
    && (r.Halt? && r.outcome == Crashed(NilResponse) ==> Unanswered(r.link))
  }

  lemma {:induction false} StepsSettle(s: Saga, kinds: seq<Kind>)
    requires forall i :: 0 <= i < |kinds| ==> kinds[i] in CreationOrder
    ensures SettlesAll(s, Steps(s, kinds), kinds)
    decreases |kinds|
  {
    if |kinds| > 0 {
      StepSettles(kinds[0], s);
      match Step(kinds[0], s)
      case Halt(o, l) =>
      case Go(s') =>
        var rest := kinds[1..];
        assert forall i :: 0 <= i < |rest| ==> rest[i] == kinds[i + 1];
        StepsSettle(s', rest);
        var r := Steps(s', rest);
        assert Steps(s, kinds) == r;
        ExtendsTrans(s.link.trace, s'.link.trace, LinkOf(r).trace);
        if r.Halt? && r.outcome.Failed? {
          UnwoundAfterQuiet(s.link.trace, s'.link.trace, r.link.trace, Undo(r.outcome.failure.kind));
        }
    }
  }

  /** `s1` and `s2` hold the same resource of kind `k`. */
  predicate SameResource(s1: Saga, s2: Saga, k: Kind)
  {
    match k
    case ZvolKind => s1.zvol == s2.zvol
    case TargetKind => s1.target == s2.target
    case GroupKind => s1.group == s2.group
    case ExtentKind => s1.extent == s2.extent
    case MappingKind => s1.mapping == s2.mapping
    case _ => true
  }

  /** State `b` still holds the resource that the `m`-th creating step,
      run after the ones before it from `s`, went on with. */
  predicate HoldsMade(s: Saga, b: Saga, m: nat)
    requires m < |CreationOrder|
  {
    Steps(s, CreationOrder[..m + 1]).Go? && SameResource(b, Steps(s, CreationOrder[..m + 1]).s, CreationOrder[m])
  }

  /** The kinds of the creation order are distinct: each stands at its own
      position. */
  lemma PositionOf(j: nat)
    requires j < |CreationOrder|
    ensures Position(CreationOrder[j]) == j
  {
  }

  /** Running one step more after a run of steps. */
  lemma {:induction false} StepsSnoc(s: Saga, kinds: seq<Kind>, k: Kind)
    ensures var r := Steps(s, kinds);
            Steps(s, kinds + [k]) == if r.Halt? then r else Step(k, r.s)
    decreases |kinds|
  {
    if |kinds| == 0 {
      assert [k][1..] == [];
    } else {
      assert (kinds + [k])[1..] == kinds[1..] + [k];
      match Step(kinds[0], s)
      case Halt(o, l) =>
      case Go(s') => StepsSnoc(s', kinds[1..], k);
    }
  }

  /** A failure of the first `n` creating steps happened in the step of the
      failing kind, run from the state the steps before it went on with. */
  lemma {:induction false} StepsFailAt(s: Saga, n: nat)
    requires n <= |CreationOrder|
    ensures var r := Steps(s, CreationOrder[..n]);
            r.Halt? && r.outcome.Failed? ==>
              && r.outcome.failure.Remote?
              && Position(r.outcome.failure.kind) < n
              && Steps(s, CreationOrder[..Position(r.outcome.failure.kind)]).Go?
              && r == Step(r.outcome.failure.kind, Steps(s, CreationOrder[..Position(r.outcome.failure.kind)]).s)
    decreases n
  {
    if n > 0 {
      var pre := CreationOrder[..n - 1];
      assert CreationOrder[..n] == pre + [CreationOrder[n - 1]];
      StepsSnoc(s, pre, CreationOrder[n - 1]);
      StepsFailAt(s, n - 1);
      var q := Steps(s, pre);
      if q.Go? {
        StepSettles(CreationOrder[n - 1], q.s);
        PositionOf(n - 1);
      }
    }
  }

  /** After the first `n` creating steps went on, the zvol is the one built
      for the volume and every resource made so far is the one its own step
      went on with. */
  lemma {:induction false} StepsKeep(s: Saga, n: nat)
    requires n <= |CreationOrder|
    ensures var b := Steps(s, CreationOrder[..n]);
            b.Go? ==>
              && (n >= 1 ==> b.s.zvol == NewZvol(s))
              && forall m :: 0 <= m < n ==> HoldsMade(s, b.s, m)
    decreases n
  {
    if n > 0 {
      var pre := CreationOrder[..n - 1];
      assert CreationOrder[..n] == pre + [CreationOrder[n - 1]];
      StepsSnoc(s, pre, CreationOrder[n - 1]);
      StepsKeep(s, n - 1);
      var q := Steps(s, pre);
      if q.Go? {
        var k := CreationOrder[n - 1];
        StepSettles(k, q.s);
        if n == 1 {
          ZvolSettles(s);
        }
        var b := Step(k, q.s);
        assert Steps(s, CreationOrder[..n]) == b;
        if b.Go? {
          forall m | 0 <= m < n
            ensures HoldsMade(s, b.s, m)
          {
            if m < n - 1 {
              PositionOf(m);
              PositionOf(n - 1);
              assert HoldsMade(s, q.s, m);
            } else {
              assert m + 1 == n;
            }
          }
        }
      }
    }
  }

  /** The annotations the provisioner writes on the volume: who made it, where
      its zvol lives, and the IDs of its iSCSI resources in decimal. */
  function Annotations(s: Saga): map<string, string>
  {
    map[IdentityKey := s.identity,
        DatasetParentKey := s.cfg.datasetParentName,
        PoolKey := s.parent.pool,
        ZvolKey := s.names.zvol,
        IscsiNameKey := s.names.iscsi,
        TargetIdKey := Itoa(s.target.id),
        TargetGroupIdKey := Itoa(s.group.id),
        ExtentIdKey := Itoa(s.extent.id),
        TargetToExtentIdKey := Itoa(s.mapping.id)]
  }

  /** Builds the PersistentVolume once every resource exists; a mapping whose
      LUN the appliance left out panics on the nil pointer. */
  function Finish(s: Saga): Outcome<PersistentVolume>
  {
    if s.mapping.lunid.None? then Crashed(NilLunid)
    else
      var c := s.opts.claim;
      Ok(PersistentVolume(
           s.opts.pvName, Annotations(s), s.opts.reclaimPolicy, c.accessModes, c.storage, c.volumeMode,
           ISCSISource(s.cfg.targetPortal, Portals(s.cfg.portals), s.basename + ":" + s.names.iscsi,
                       s.cfg.iscsiInterface, Int32(s.mapping.lunid.value), s.extent.ro, s.cfg.fsType)))
  }

  /** Provision: the checks, the five creating steps, then the volume. The
      appliance's iSCSI base name and the replies it gives are inputs. */
  function Provision(identity: string, opts: VolumeOptions, cfg: Config, basename: string, script: seq<Reply>)
    : Run<PersistentVolume>
  {
    match Start(identity, opts, cfg, basename, script)
    case Halt(o, l) => Run(o, l.trace)
    case Go(s) =>
      match Steps(s, CreationOrder)
      case Halt(o, l) => Run(o, l.trace)
      case Go(s') => Run(Finish(s'), s'.link.trace)
  }

  /** Only the extent step posts extents: at most one per attempt, each
      naming the volume's disk. */
  lemma StepPosts(k: Kind, s: Saga)
    requires k in CreationOrder
    ensures PostsOf(s.link.trace, LinkOf(Step(k, s)).trace, s.names.disk, if k == ExtentKind then ExtentMaxLoops + 1 else 0)
  {
    match k
    case ZvolKind =>
      ZvolSettles(s);
      PostsOfQuiet(s.link.trace, LinkOf(Step(k, s)).trace, s.names.disk);
    case TargetKind =>
      TargetSettles(s);
      PostsOfQuiet(s.link.trace, LinkOf(Step(k, s)).trace, s.names.disk);
    case GroupKind =>
      GroupSettles(s);
      PostsOfQuiet(s.link.trace, LinkOf(Step(k, s)).trace, s.names.disk);
    case ExtentKind =>
      ExtentPostsOwn(s.(extent := NewExtent(s)), 0);
      ExtentPostsCount(s.(extent := NewExtent(s)), 0);
    case MappingKind =>
      MappingSettles(s);
      PostsOfQuiet(s.link.trace, LinkOf(Step(k, s)).trace, s.names.disk);
  }

  lemma {:induction false} StepsPost(s: Saga, kinds: seq<Kind>)
    requires forall i :: 0 <= i < |kinds| ==> kinds[i] in CreationOrder
    ensures PostsOf(s.link.trace, LinkOf(Steps(s, kinds)).trace, s.names.disk,
                    (ExtentMaxLoops + 1) * multiset(kinds)[ExtentKind])
    decreases |kinds|
  {
    if |kinds| > 0 {
      var k := kinds[0];
      var rest := kinds[1..];
      assert kinds == [k] + rest;
      assert multiset(kinds)[ExtentKind] == (if k == ExtentKind then 1 else 0) + multiset(rest)[ExtentKind];
      StepPosts(k, s);
      StepSettles(k, s);
      match Step(k, s)
      case Halt(o, l) =>
      case Go(s') =>
        assert forall i :: 0 <= i < |rest| ==> rest[i] == kinds[i + 1];
        StepsPost(s', rest);
        PostsOfTrans(s.link.trace, s'.link.trace, LinkOf(Steps(s', rest)).trace, s.names.disk,
                     if k == ExtentKind then ExtentMaxLoops + 1 else 0,
                     (ExtentMaxLoops + 1) * multiset(rest)[ExtentKind]);
    }
  }

  // ---------------------------------------------------------------------
  // Properties of a whole run

  /** Provision sends nothing exactly when the access modes are refused. */
  lemma ProvisionChecksModes(identity: string, opts: VolumeOptions, cfg: Config, basename: string, script: seq<Reply>)
    ensures var r := Provision(identity, opts, cfg, basename, script);
            && (r.trace == [] <==> !AccessModesContainedInAll(SupportedAccessModes, opts.claim.accessModes))
            && (r.trace == [] ==> r.outcome == Failed(InvalidAccessModes))
            && (r.trace != [] ==> r.trace[0] == Op(GET, GlobalConfiguration, NoBody))
  {
    var p := Start(identity, opts, cfg, basename, script);
    if p.Go? {
      StepsSettle(p.s, CreationOrder);
    }
  }

  /** A failed run has rolled back exactly what the failing request's kind
      undoes, and nothing else. */
  lemma ProvisionRollsBack(identity: string, opts: VolumeOptions, cfg: Config, basename: string, script: seq<Reply>)
    ensures var r := Provision(identity, opts, cfg, basename, script);
            r.outcome.Failed? && r.outcome.failure.Remote? ==>
              UnwoundAfter([], r.trace, Undo(r.outcome.failure.kind))
  {
    var p := Start(identity, opts, cfg, basename, script);
    if p.Halt? {
      assert Provision(identity, opts, cfg, basename, script) == Run(p.outcome, p.link.trace);
    } else {
      StepsSettle(p.s, CreationOrder);
      var q := Steps(p.s, CreationOrder);
      if q.Halt? {
        assert Provision(identity, opts, cfg, basename, script) == Run(q.outcome, q.link.trace);
        if q.outcome.Failed? {
          UnwoundAfterQuiet([], p.s.link.trace, q.link.trace, Undo(q.outcome.failure.kind));
        }
      }
    }
  }

  /** A run that failed in a creating step rolled back the very resources
      the steps before it went on with, newest first: the zvol named after
      the volume in the parent dataset's pool, then the target, group and
      extent as the appliance returned them. */
  lemma ProvisionDeletesOwn(identity: string, opts: VolumeOptions, cfg: Config, basename: string, script: seq<Reply>)
    ensures var p := Start(identity, opts, cfg, basename, script);
            var r := Provision(identity, opts, cfg, basename, script);
            p.Go? && r.outcome.Failed? ==>
              && r.outcome.failure.Remote?
              && var i := Position(r.outcome.failure.kind);
              && i < |CreationOrder|
              && Steps(p.s, CreationOrder[..i]).Go?
              && var b := Steps(p.s, CreationOrder[..i]).s;
              && DeletesOwn(b, r.trace, Undo(r.outcome.failure.kind))
              && (i >= 1 ==> DeleteOp(b, ZvolKind)
                               == Op(DELETE, ZvolItem(FreenasDataset.Decoded(script[1]).pool, p.s.names.zvol), Cascade(true)))
              && forall m :: 0 <= m < i ==> HoldsMade(p.s, b, m)
  {
    var p := Start(identity, opts, cfg, basename, script);
    if p.Go? {
      var q := Steps(p.s, CreationOrder);
      assert CreationOrder[..|CreationOrder|] == CreationOrder;
      StepsFailAt(p.s, |CreationOrder|);
      if q.Halt? && q.outcome.Failed? {
        assert Provision(identity, opts, cfg, basename, script) == Run(q.outcome, q.link.trace);
        var k := q.outcome.failure.kind;
        var i := Position(k);
        StepsKeep(p.s, i);
        StepSettles(k, Steps(p.s, CreationOrder[..i]).s);
      }
    }
  }

  /** A run that returns a volume deleted nothing. */
  lemma ProvisionKeepsOnSuccess(identity: string, opts: VolumeOptions, cfg: Config, basename: string, script: seq<Reply>)
    ensures var r := Provision(identity, opts, cfg, basename, script);
            r.outcome.Ok? ==> NoDelete(r.trace)
  {
    var p := Start(identity, opts, cfg, basename, script);
    if p.Go? {
      StepsSettle(p.s, CreationOrder);
      var q := Steps(p.s, CreationOrder);
      if q.Go? {
        assert Provision(identity, opts, cfg, basename, script) == Run(Finish(q.s), q.s.link.trace);
        NoDeleteExtended(p.s.link.trace, q.s.link.trace);
      }
    }
  }

  /** A nil-response panic follows the request that got no reply. */
  lemma ProvisionCrashesUnanswered(identity: string, opts: VolumeOptions, cfg: Config, basename: string, script: seq<Reply>)
    ensures var r := Provision(identity, opts, cfg, basename, script);
            r.outcome == Crashed(NilResponse) ==> Unanswered(Link(script, r.trace))
  {
    var p := Start(identity, opts, cfg, basename, script);
    if p.Go? {
      StepsSettle(p.s, CreationOrder);
      var q := Steps(p.s, CreationOrder);
      if q.Halt? {
        assert Provision(identity, opts, cfg, basename, script) == Run(q.outcome, q.link.trace);
        assert q.link == Link(script, q.link.trace);
      }
    }
  }

  /** Which requests a run issued: the start's, then the creating steps'. */
  lemma ProvisionTrace(identity: string, opts: VolumeOptions, cfg: Config, basename: string, script: seq<Reply>)
    ensures var p := Start(identity, opts, cfg, basename, script);
            var r := Provision(identity, opts, cfg, basename, script);
            && (p.Halt? ==> r.trace == p.link.trace)
            && (p.Go? ==> r.trace == LinkOf(Steps(p.s, CreationOrder)).trace)
  {
  }

  /** From a start that posted no extent, the creating steps post at most
      three extents, each naming the volume's disk. */
  lemma StepsBoundExtents(s: Saga)
    requires forall i :: 0 <= i < |s.link.trace| ==> !IsExtentPost(s.link.trace[i])
    requires |s.names.disk| <= MaxDiskNameLength
    ensures var t := LinkOf(Steps(s, CreationOrder)).trace;
            ExtentPosts(t) <= ExtentMaxLoops + 1 && DisksFit(t, MaxDiskNameLength)
  {
    ExtentPostsSteady([], s.link.trace);
    StepsPost(s, CreationOrder);
    assert multiset(CreationOrder)[ExtentKind] == 1;
    PostsOfFit(s.link.trace, LinkOf(Steps(s, CreationOrder)).trace, s.names.disk, ExtentMaxLoops + 1, MaxDiskNameLength);
  }

  /** Extent creation is attempted at most three times, and every extent
      posted names a disk path the backend accepts. */
  lemma ProvisionBoundsExtents(identity: string, opts: VolumeOptions, cfg: Config, basename: string, script: seq<Reply>)
    ensures var r := Provision(identity, opts, cfg, basename, script);
            ExtentPosts(r.trace) <= ExtentMaxLoops + 1 && DisksFit(r.trace, MaxDiskNameLength)
  {
    ProvisionTrace(identity, opts, cfg, basename, script);
    var p := Start(identity, opts, cfg, basename, script);
    assert NoExtentPostAfter([], LinkOf(p).trace);
    if p.Go? {
      StepsBoundExtents(p.s);
    } else {
      ExtentPostsSteady([], p.link.trace);
    }
  }

  /** A disk path that is too long is refused after the two reads and before
      anything is created. */
  lemma ProvisionRefusesLongDisk(identity: string, opts: VolumeOptions, cfg: Config, basename: string, script: seq<Reply>)
    ensures var r := Provision(identity, opts, cfg, basename, script);
            r.outcome.Failed? && r.outcome.failure.DiskNameTooLong? ==>
              |r.outcome.failure.disk| > MaxDiskNameLength
              && r.trace == [Op(GET, GlobalConfiguration, NoBody), Op(GET, DatasetItem(cfg.datasetParentName), NoBody)]
  {
    var p := Start(identity, opts, cfg, basename, script);
    if p.Go? {
      StepsSettle(p.s, CreationOrder);
    }
  }

  /** Once the modes are accepted and both reads answered, a derived disk
      path over 63 characters is refused, with nothing created. */
  lemma ProvisionChecksDiskLength(identity: string, opts: VolumeOptions, cfg: Config, basename: string, script: seq<Reply>)
    requires AccessModesContainedInAll(SupportedAccessModes, opts.claim.accessModes)
    requires |script| >= 2 && script[0].Replied? && script[1].Replied? && script[1].status == 200
    requires |DeriveNames(FreenasDataset.Decoded(script[1]), opts.pvName, cfg.iscsiNamePrefix, cfg.iscsiNameSuffix).disk|
               > MaxDiskNameLength
    ensures var r := Provision(identity, opts, cfg, basename, script);
            && r.outcome == Failed(DiskNameTooLong(
                 DeriveNames(FreenasDataset.Decoded(script[1]), opts.pvName, cfg.iscsiNamePrefix, cfg.iscsiNameSuffix).disk))
            && r.trace == [Op(GET, GlobalConfiguration, NoBody), Op(GET, DatasetItem(cfg.datasetParentName), NoBody)]
  {
  }

  /** The empty-zvol-name check never fires: the zvol name always ends in
      "/" and the PV name. */
  lemma ProvisionNeverEmptyZvol(identity: string, opts: VolumeOptions, cfg: Config, basename: string, script: seq<Reply>)
    ensures Provision(identity, opts, cfg, basename, script).outcome != Failed(EmptyZvolName)
  {
    var p := Start(identity, opts, cfg, basename, script);
    if p.Go? {
      StepsSettle(p.s, CreationOrder);
    }
  }

  /** The `i`-th reply of the script exists and refuses an extent without a
      conflict: neither 201 nor 409. */
  predicate Refused(script: seq<Reply>, i: int)
  {
    0 <= i < |script| && script[i].Replied? && script[i].status != 201 && script[i].status != 409
  }

  /** When every attempt is refused with something other than 201 or 409,
      the extent step posts the extent once per remaining attempt, then gives
      up without a result. */
  lemma {:induction false} ExtentRetriesExhaust(s: Saga, attempt: nat)
    requires attempt <= ExtentMaxLoops
    requires forall i :: |s.link.trace| <= i < |s.link.trace| + (ExtentMaxLoops + 1 - attempt) ==> Refused(s.link.script, i)
    ensures var r := ExtentStep(s, attempt);
            && r.Halt? && !r.outcome.Ok?
            && ExtentPosts(r.link.trace) == ExtentPosts(s.link.trace) + (ExtentMaxLoops + 1 - attempt)
    decreases ExtentMaxLoops - attempt
  {
    var op := Op(POST, ExtentCollection, ExtentBody(s.extent));
    var (a, l) := FreenasExtent.Create(s.extent, s.link);
    ExtentPostsAppend(s.link.trace, op);
    assert l.script == s.link.script && |l.trace| == |s.link.trace| + 1;
    assert Refused(s.link.script, |s.link.trace|);
    assert a.err.Some? && a.status == Some(Next(s.link).status) && a.status.value != 409;
    if attempt < ExtentMaxLoops {
      forall i | |l.trace| <= i < |l.trace| + (ExtentMaxLoops + 1 - (attempt + 1))
        ensures Refused(l.script, i)
      {
        assert |s.link.trace| <= i < |s.link.trace| + (ExtentMaxLoops + 1 - attempt);
      }
      assert ExtentStep(s, attempt) == ExtentStep(s.(link := l), attempt + 1);
      ExtentRetriesExhaust(s.(link := l), attempt + 1);
    } else {
      var r := Abort(s.(link := l), ExtentKind, a.err.value);
      assert ExtentStep(s, attempt) == r;
      ExtentPostsSteady(l.trace, r.link.trace);
    }
  }

  /** When the appliance accepts the request, each step makes exactly one
      request and goes on with what the appliance returned. */
  lemma StepsAccepted(s: Saga)
    ensures Next(s.link).Replied? && Next(s.link).status == 202 ==>
              ZvolStep(s) == Go(s.(link := Send(s.link, Op(POST, ZvolCollection(s.parent.pool), ZvolBody(NewZvol(s)))).1,
                                   zvol := NewZvol(s)))
    ensures Next(s.link).Replied? && Next(s.link).status == 201 ==>
              TargetStep(s) == Go(s.(link := Send(s.link, Op(POST, TargetCollection, TargetBody(NewTarget(s)))).1,
                                     target := FreenasTarget.Decoded(Next(s.link))))
    ensures Next(s.link).Replied? && Next(s.link).status == 201 ==>
              GroupStep(s) == Go(s.(link := Send(s.link, Op(POST, GroupCollection, GroupBody(NewGroup(s)))).1,
                                    group := FreenasTargetGroup.Decoded(Next(s.link))))
    ensures Next(s.link).Replied? && Next(s.link).status == 201 ==>
              ExtentStep(s, 0) == Go(s.(link := Send(s.link, Op(POST, ExtentCollection, ExtentBody(s.extent))).1,
                                        extent := FreenasExtent.Decoded(Next(s.link)).(disk := s.extent.disk)))
    ensures Next(s.link).Replied? && Next(s.link).status == 201 ==>
              MappingStep(s) == Go(s.(link := Send(s.link, Op(POST, MappingCollection, MappingBody(NewMapping(s)))).1,
                                      mapping := FreenasTargetToExtent.Decoded(Next(s.link))))
  {
  }

  /** The status each creating step takes for success. */
  function Accepts(k: Kind): int
  {
    if k == ZvolKind then 202 else 201
  }

  /** From the `j`-th creating step on, when the appliance accepts each
      request, the steps make one request each and go on to the end with the
      mapping the appliance returned. */
  lemma {:induction false} AcceptedSteps(s: Saga, j: nat)
    requires j <= |CreationOrder|
    requires |s.link.trace| == 2 + j && |s.link.script| >= 7
    requires forall i :: 2 + j <= i < 7 ==>
               s.link.script[i].Replied? && s.link.script[i].status == Accepts(CreationOrder[i - 2])
    ensures var r := Steps(s, CreationOrder[j..]);
            && r.Go? && r.s.link.script == s.link.script && |r.s.link.trace| == 7
            && (j < |CreationOrder| ==> r.s.mapping == FreenasTargetToExtent.Decoded(s.link.script[6]))
    decreases |CreationOrder| - j
  {
    if j < |CreationOrder| {
      AcceptedStep(s, j);
      assert CreationOrder[j..][1..] == CreationOrder[j + 1..];
      AcceptedSteps(Step(CreationOrder[j], s).s, j + 1);
    }
  }

  /** The `j`-th creating step, accepted, makes one request and goes on; the
      mapping step keeps the mapping the appliance returned. */
  lemma AcceptedStep(s: Saga, j: nat)
    requires j < |CreationOrder| && |s.link.trace| == 2 + j && |s.link.script| >= 7
    requires s.link.script[2 + j].Replied? && s.link.script[2 + j].status == Accepts(CreationOrder[j])
    ensures var r := Step(CreationOrder[j], s);
            && r.Go? && r.s.link.script == s.link.script && |r.s.link.trace| == 3 + j
            && (j == 4 ==> r.s.mapping == FreenasTargetToExtent.Decoded(s.link.script[6]))
  {
    StepsAccepted(s);
    StepsAccepted(s.(extent := NewExtent(s)));
  }

  /** When the appliance accepts every request, the run issues the two reads
      and the five creates, deletes nothing, and returns a volume at the LUN
      the mapping was created with. */
  lemma ProvisionHappyPath(identity: string, opts: VolumeOptions, cfg: Config, basename: string, script: seq<Reply>)
    requires AccessModesContainedInAll(SupportedAccessModes, opts.claim.accessModes)
    requires |script| >= 7 && script[0].Replied? && script[1].Replied? && script[1].status == 200
    requires |DeriveNames(FreenasDataset.Decoded(script[1]), opts.pvName, cfg.iscsiNamePrefix, cfg.iscsiNameSuffix).disk|
               <= MaxDiskNameLength
    requires forall i :: 2 <= i < 7 ==> script[i].Replied? && script[i].status == Accepts(CreationOrder[i - 2])
    requires FreenasTargetToExtent.Decoded(script[6]).lunid == Some(0)
    ensures var r := Provision(identity, opts, cfg, basename, script);
            && r.outcome.Ok? && r.outcome.value.iscsi.lun == 0
            && |r.trace| == 7 && NoDelete(r.trace)
  {
    var p := Start(identity, opts, cfg, basename, script);
    assert p.Go?;
    AcceptedSteps(p.s, 0);
    assert CreationOrder[0..] == CreationOrder;
    ProvisionKeepsOnSuccess(identity, opts, cfg, basename, script);
  }

  /** The volume carries the resources' IDs so that Atoi reads each back, the
      IQN joins the appliance's base name and the iSCSI name, and a missing
      LUN is the only way Finish fails. */
  lemma FinishAnnotates(s: Saga)
    ensures Finish(s).Crashed? <==> s.mapping.lunid.None?
    ensures Finish(s).Ok? ==>
              var pv := Finish(s).value;
              && pv.name == s.opts.pvName
              && pv.annotations.Keys == {IdentityKey, DatasetParentKey, PoolKey, ZvolKey, IscsiNameKey,
                                         TargetIdKey, TargetGroupIdKey, ExtentIdKey, TargetToExtentIdKey}
              && Atoi(pv.annotations[TargetIdKey]) == s.target.id
              && Atoi(pv.annotations[TargetGroupIdKey]) == s.group.id
              && Atoi(pv.annotations[ExtentIdKey]) == s.extent.id
              && Atoi(pv.annotations[TargetToExtentIdKey]) == s.mapping.id
              && pv.annotations[ZvolKey] == s.names.zvol && pv.annotations[PoolKey] == s.parent.pool
              && pv.iscsi.iqn[..|s.basename| + 1] == s.basename + ":"
              && pv.iscsi.iqn[|s.basename| + 1..] == s.names.iscsi
              && pv.iscsi.portals == Portals(s.cfg.portals)
              && (s.cfg.portals == "" <==> pv.iscsi.portals == [])
              && pv.iscsi.readOnly == s.extent.ro
              && pv.iscsi.lun == Int32(s.mapping.lunid.value)
              && (s.mapping.lunid == Some(0) ==> pv.iscsi.lun == 0)
  {
    AtoiItoa(s.target.id);
    AtoiItoa(s.group.id);
    AtoiItoa(s.extent.id);
    AtoiItoa(s.mapping.id);
  }

  /** Each annotation reads back the value it was written from; the ID
      annotations are never empty. */
  lemma AnnotationsRead(s: Saga)
    ensures var m := Annotations(s);
            && Annotation(m, IdentityKey) == s.identity
            && Annotation(m, DatasetParentKey) == s.cfg.datasetParentName
            && Annotation(m, PoolKey) == s.parent.pool
            && Annotation(m, ZvolKey) == s.names.zvol
            && Annotation(m, IscsiNameKey) == s.names.iscsi
            && Annotation(m, TargetIdKey) == Itoa(s.target.id) != ""
            && Annotation(m, TargetGroupIdKey) == Itoa(s.group.id) != ""
            && Annotation(m, ExtentIdKey) == Itoa(s.extent.id) != ""
            && Annotation(m, TargetToExtentIdKey) == Itoa(s.mapping.id) != ""
  {
  }
}
