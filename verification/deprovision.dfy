/** Deprovisioning (Delete in provisioner/provisioner.go): read the volume's
    annotations, then delete its target, its extent and its zvol, taking a
    resource that is already gone as deleted. */
module Deprovision {
  import opened FreenasTypes
  import opened GoStrings
  import opened Strconv
  import opened Appliance
  import opened Volume
  import opened SagaTrace
  import opened ProvisionSaga
  import FreenasDataset
  import FreenasTarget
  import FreenasExtent
  import FreenasZvol

  /** The annotations Delete cannot do without, in the order it checks them. */
  const RequiredKeys: seq<string> := [TargetIdKey, ExtentIdKey, PoolKey, ZvolKey, DatasetParentKey]

  /** The text of the appliance's 400 for a zvol that no longer exists. */
  const ZvolGone := "dataset does not exist"

  /** The first of `keys` whose annotation is empty or missing. */
  function FirstMissing(m: map<string, string>, keys: seq<string>): (r: Option<string>)
    ensures r.None? <==> forall i :: 0 <= i < |keys| ==> Annotation(m, keys[i]) != ""
    ensures r.Some? ==> exists i :: 0 <= i < |keys| && keys[i] == r.value && Annotation(m, keys[i]) == ""
                          && forall j :: 0 <= j < i ==> Annotation(m, keys[j]) != ""
    decreases |keys|
  {
    if |keys| == 0 then None
    else if Annotation(m, keys[0]) == "" then Some(keys[0])
    else
      var rest := FirstMissing(m, keys[1..]);
      assert forall i :: 0 < i < |keys| ==> keys[i] == keys[1..][i - 1];
      if rest.Some? then
        ghost var i :| 0 <= i < |keys[1..]| && keys[1..][i] == rest.value && Annotation(m, keys[1..][i]) == ""
                       && forall j :: 0 <= j < i ==> Annotation(m, keys[1..][j]) != "";
        assert keys[i + 1] == rest.value && forall j :: 0 <= j < i + 1 ==> Annotation(m, keys[j]) != "";
        rest
      else rest
  }

  /** A zvol delete that failed because the zvol is already gone. */
  predicate ZvolAlreadyGone(a: Answer<Zvol>)
    requires a.Answer? && a.err.Some? && a.status.Some?
  {
    a.status.value == 404 || (a.status.value == 400 && Contains(a.err.value, ZvolGone))
  }

  /** Delete: check the annotations, read the parent dataset (whose record
      supplies the pool the zvol is deleted from), then delete the target,
      the extent and the zvol. A 404 for any of them counts as deleted. */
  function Delete(m: map<string, string>, script: seq<Reply>): Run<()>
  {
    var missing := FirstMissing(m, RequiredKeys);
    if missing.Some? then Run(Failed(MissingAnnotation(missing.value)), [])
    else
      var l0 := Link(script, []);
      var (p, l1) := FreenasDataset.Get(ZeroDataset.(name := Annotation(m, DatasetParentKey)), l0);
      if p.err.Some? then Run(Failed(Remote(DatasetKind, p.err.value)), l1.trace)
      else
        var (t, l2) := FreenasTarget.Delete(ZeroTarget.(id := Atoi(Annotation(m, TargetIdKey))), l1);
        if t.err.Some? && t.status.None? then Run(Crashed(NilResponse), l2.trace)
        else if t.err.Some? && t.status.value != 404 then Run(Failed(Remote(TargetKind, t.err.value)), l2.trace)
        else
          var (e, l3) := FreenasExtent.Delete(ZeroExtent.(id := Atoi(Annotation(m, ExtentIdKey))), l2);
          if e.Panic? then Run(Crashed(e.fault), l3.trace)
          else if e.err.Some? && e.status.value != 404 then Run(Failed(Remote(ExtentKind, e.err.value)), l3.trace)
          else
            var (z, l4) := FreenasZvol.Delete(ZeroZvol.(name := Annotation(m, ZvolKey), dataset := p.value), l3);
            if z.Panic? then Run(Crashed(z.fault), l4.trace)
            else if z.err.Some? && !ZvolAlreadyGone(z) then Run(Failed(Remote(ZvolKind, z.err.value)), l4.trace)
            else Run(Ok(()), l4.trace)
  }

  /** The reply to the `i`-th request. */
  function ReplyTo(script: seq<Reply>, i: nat): Reply
  {
    if i < |script| then script[i] else NoReply("no reply scripted")
  }

  /** Whether a delete's reply lets Delete go on: 204, or 404 for a resource
      already gone. */
  predicate Gone(reply: Reply)
  {
    reply.Replied? && (reply.status == 204 || reply.status == 404)
  }

  /** The requests a full run issues, the zvol's pool taken from the parent
      dataset's record. */
  function Plan(m: map<string, string>, script: seq<Reply>): seq<Op>
  {
    [Op(GET, DatasetItem(Annotation(m, DatasetParentKey)), NoBody),
     Op(DELETE, TargetItem(Atoi(Annotation(m, TargetIdKey))), NoBody),
     Op(DELETE, ExtentItem(Atoi(Annotation(m, ExtentIdKey))), NoBody),
     Op(DELETE, ZvolItem(FreenasDataset.Decoded(ReplyTo(script, 0)).pool, Annotation(m, ZvolKey)), Cascade(true))]
  }

  /** Nothing is sent exactly when a required annotation is empty or missing,
      and then the first such is reported. */
  lemma DeprovisionValidates(m: map<string, string>, script: seq<Reply>)
    ensures var r := Delete(m, script);
            && (r.trace == [] <==> exists i :: 0 <= i < |RequiredKeys| && Annotation(m, RequiredKeys[i]) == "")
            && (r.trace == [] ==> r.outcome == Failed(MissingAnnotation(FirstMissing(m, RequiredKeys).value)))
            && (r.outcome.Failed? && r.outcome.failure.MissingAnnotation? ==>
                  Annotation(m, r.outcome.failure.key) == "" && r.outcome.failure.key in RequiredKeys)
  {
  }

  /** A run issues a prefix of the plan, at least the dataset read once the
      annotations are present. */
  lemma DeprovisionFollowsPlan(m: map<string, string>, script: seq<Reply>)
    requires forall i :: 0 <= i < |RequiredKeys| ==> Annotation(m, RequiredKeys[i]) != ""
    ensures var r := Delete(m, script);
            1 <= |r.trace| <= 4 && r.trace == Plan(m, script)[..|r.trace|]
  {
  }

  /** Delete succeeds exactly when the dataset read answers 200 and each
      delete answers 204 or 404, or, for the zvol, a 400 saying the dataset
      does not exist. */
  lemma DeprovisionSucceeds(m: map<string, string>, script: seq<Reply>)
    requires forall i :: 0 <= i < |RequiredKeys| ==> Annotation(m, RequiredKeys[i]) != ""
    ensures Delete(m, script).outcome.Ok? <==>
              && ReplyTo(script, 0).Replied? && ReplyTo(script, 0).status == 200
              && Gone(ReplyTo(script, 1))
              && Gone(ReplyTo(script, 2))
              && (Gone(ReplyTo(script, 3))
                  || (ReplyTo(script, 3).Replied? && ReplyTo(script, 3).status == 400
                      && Contains(ReplyTo(script, 3).message, ZvolGone)))
  {
    var l0 := Link(script, []);
    assert Next(l0) == ReplyTo(script, 0);
    var l1 := FreenasDataset.Get(ZeroDataset.(name := Annotation(m, DatasetParentKey)), l0).1;
    assert Next(l1) == ReplyTo(script, 1);
    var l2 := FreenasTarget.Delete(ZeroTarget.(id := Atoi(Annotation(m, TargetIdKey))), l1).1;
    assert Next(l2) == ReplyTo(script, 2);
    var l3 := FreenasExtent.Delete(ZeroExtent.(id := Atoi(Annotation(m, ExtentIdKey))), l2).1;
    assert Next(l3) == ReplyTo(script, 3);
  }

  /** A reported failure names the kind of the last request. */
  lemma DeprovisionBlames(m: map<string, string>, script: seq<Reply>)
    ensures var r := Delete(m, script);
            r.outcome.Failed? && r.outcome.failure.Remote? ==>
              |r.trace| > 0 && KindOf(r.trace[|r.trace| - 1].at) == r.outcome.failure.kind
  {
  }

  /** A panic follows a request that got no reply. */
  lemma DeprovisionCrashesUnanswered(m: map<string, string>, script: seq<Reply>)
    ensures var r := Delete(m, script);
            r.outcome.Crashed? ==> r.outcome.fault == NilResponse && Unanswered(Link(script, r.trace))
  {
    var l0 := Link(script, []);
    if FirstMissing(m, RequiredKeys).None? {
      var (p, l1) := FreenasDataset.Get(ZeroDataset.(name := Annotation(m, DatasetParentKey)), l0);
      var (t, l2) := FreenasTarget.Delete(ZeroTarget.(id := Atoi(Annotation(m, TargetIdKey))), l1);
      SentUnanswered(l1, Op(DELETE, TargetItem(Atoi(Annotation(m, TargetIdKey))), NoBody));
      var (e, l3) := FreenasExtent.Delete(ZeroExtent.(id := Atoi(Annotation(m, ExtentIdKey))), l2);
      SentUnanswered(l2, Op(DELETE, ExtentItem(Atoi(Annotation(m, ExtentIdKey))), NoBody));
      SentUnanswered(l3, Op(DELETE, ZvolItem(p.value.pool, Annotation(m, ZvolKey)), Cascade(true)));
    }
  }

  /** A failure reported by the appliance carries the text of the last
      reply: its message, or the transport's reason when nothing came back. */
  lemma DeprovisionReportsRefusal(m: map<string, string>, script: seq<Reply>)
    requires forall i :: 0 <= i < |RequiredKeys| ==> Annotation(m, RequiredKeys[i]) != ""
    ensures var r := Delete(m, script);
            var n := |r.trace|;
            r.outcome.Failed? ==>
              r.outcome.failure.Remote? && n >= 1 && r.outcome.failure.text == ErrorText(ReplyTo(script, n - 1))
  {
    var l0 := Link(script, []);
    assert Next(l0) == ReplyTo(script, 0);
    var d := ZeroDataset.(name := Annotation(m, DatasetParentKey));
    FreenasDataset.GetReports(d, l0);
    var l1 := FreenasDataset.Get(d, l0).1;
    assert Next(l1) == ReplyTo(script, 1);
    var t := ZeroTarget.(id := Atoi(Annotation(m, TargetIdKey)));
    FreenasTarget.DeleteReports(t, l1);
    var l2 := FreenasTarget.Delete(t, l1).1;
    assert Next(l2) == ReplyTo(script, 2);
    var e := ZeroExtent.(id := Atoi(Annotation(m, ExtentIdKey)));
    FreenasExtent.DeleteReports(e, l2);
    var l3 := FreenasExtent.Delete(e, l2).1;
    assert Next(l3) == ReplyTo(script, 3);
  }

  /** Delete stops at the first request it cannot accept: it fails on the
      dataset read exactly when that read is not answered 200, every delete
      before the last was accepted, and the last was refused; a 400 for the
      zvol is a refusal only when it does not say the dataset is gone. */
  lemma DeprovisionStopsAtRefusal(m: map<string, string>, script: seq<Reply>)
    requires forall i :: 0 <= i < |RequiredKeys| ==> Annotation(m, RequiredKeys[i]) != ""
    ensures var r := Delete(m, script);
            var n := |r.trace|;
            r.outcome.Failed? ==>
              && (n == 1 <==> !(ReplyTo(script, 0).Replied? && ReplyTo(script, 0).status == 200))
              && (forall i :: 1 <= i < n - 1 ==> Gone(ReplyTo(script, i)))
              && (n > 1 ==> ReplyTo(script, n - 1).Replied? && !Gone(ReplyTo(script, n - 1)))
              && (n == 4 && ReplyTo(script, 3).status == 400 ==> !Contains(ReplyTo(script, 3).message, ZvolGone))
  {
    var l0 := Link(script, []);
    assert Next(l0) == ReplyTo(script, 0);
    var l1 := FreenasDataset.Get(ZeroDataset.(name := Annotation(m, DatasetParentKey)), l0).1;
    assert Next(l1) == ReplyTo(script, 1);
    var l2 := FreenasTarget.Delete(ZeroTarget.(id := Atoi(Annotation(m, TargetIdKey))), l1).1;
    assert Next(l2) == ReplyTo(script, 2);
    var l3 := FreenasExtent.Delete(ZeroExtent.(id := Atoi(Annotation(m, ExtentIdKey))), l2).1;
    assert Next(l3) == ReplyTo(script, 3);
  }

  /** Deleting twice: once every resource is gone the appliance answers 404
      to each delete, and a second Delete succeeds as the first did. */
  lemma DeprovisionIdempotent(m: map<string, string>, parent: Reply)
    requires forall i :: 0 <= i < |RequiredKeys| ==> Annotation(m, RequiredKeys[i]) != ""
    requires parent.Replied? && parent.status == 200
    ensures var gone := Replied(404, "not found", NoBody);
            Delete(m, [parent, gone, gone, gone]).outcome == Ok(())
  {
    DeprovisionSucceeds(m, [parent, Replied(404, "not found", NoBody), Replied(404, "not found", NoBody),
                            Replied(404, "not found", NoBody)]);
  }

  /** Deleting what Provision built: the volume's annotations send Delete
      after the parent dataset the storage class named and the saga's own
      target, extent and zvol. */
  lemma DeprovisionUndoesProvision(s: Saga, script: seq<Reply>)
    requires Finish(s).Ok?
    requires s.parent.pool != "" && s.cfg.datasetParentName != "" && s.names.zvol != ""
    ensures var r := Delete(Finish(s).value.annotations, script);
            && 1 <= |r.trace| <= 4
            && r.trace == [Op(GET, DatasetItem(s.cfg.datasetParentName), NoBody),
                           Op(DELETE, TargetItem(s.target.id), NoBody),
                           Op(DELETE, ExtentItem(s.extent.id), NoBody),
                           Op(DELETE, ZvolItem(FreenasDataset.Decoded(ReplyTo(script, 0)).pool, s.names.zvol),
                              Cascade(true))][..|r.trace|]
  {
    var m := Finish(s).value.annotations;
    AnnotationsRead(s);
    AtoiItoa(s.target.id);
    AtoiItoa(s.extent.id);
    DeprovisionFollowsPlan(m, script);
  }

  /** A volume whose parent dataset record had no pool cannot be deleted:
      Delete refuses before sending anything. */
  lemma DeprovisionNeedsPool(s: Saga, script: seq<Reply>)
    requires Finish(s).Ok? && s.parent.pool == ""
    ensures var r := Delete(Finish(s).value.annotations, script);
            r.trace == [] && r.outcome == Failed(MissingAnnotation(PoolKey))
  {
    var m := Finish(s).value.annotations;
    AnnotationsRead(s);
    assert FirstMissing(m, RequiredKeys[2..]) == Some(PoolKey);
    assert FirstMissing(m, RequiredKeys[1..]) == Some(PoolKey);
  }
}
