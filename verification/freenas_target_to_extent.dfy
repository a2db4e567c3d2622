/** The LUN-mapping client (freenas/target_to_extent.go). */
module FreenasTargetToExtent {
  import opened FreenasTypes
  import opened Appliance

  const NotFound := "no TargetToExtent has been found"
  const CopyError := "Cannot copy, src is not a TargetToExtent"

  function Decoded(reply: Reply): TargetToExtent
  {
    if reply.Replied? && Is2xx(reply.status) && reply.body.MappingBody? then reply.body.mapping else ZeroTargetToExtent
  }

  function Listed(reply: Reply): seq<TargetToExtent>
  {
    if reply.Replied? && Is2xx(reply.status) && reply.body.MappingList? then reply.body.mappings else []
  }

  /** The result of scanning a listing for a mapping's natural key. */
  datatype Scan = Found(item: TargetToExtent) | Missing | NilItemLunid

  /** `item` names the same target and extent as `t`. */
  predicate SamePair(item: TargetToExtent, t: TargetToExtent)
  {
    item.target == t.target && item.extent == t.extent
  }

  /** The test `item.Target == t.Target && item.Extent == t.Extent &&
      *item.Lunid == *t.Lunid` when it does not panic. */
  predicate SameKey(item: TargetToExtent, lunid: GoInt, t: TargetToExtent)
  {
    SamePair(item, t) && item.lunid == Some(lunid)
  }

  /** An item the scan passes over: another pair, or the same pair at another LUN. */
  predicate Skipped(item: TargetToExtent, lunid: GoInt, t: TargetToExtent)
  {
    SamePair(item, t) ==> item.lunid.Some? && item.lunid.value != lunid
  }

  /** Scans the listing in order: an item of the same pair whose LUN id is
      nil panics, one whose LUN id agrees is adopted. */
  function FindKey(items: seq<TargetToExtent>, lunid: GoInt, t: TargetToExtent): (r: Scan)
    ensures r.Found? ==>
              exists i :: 0 <= i < |items| && items[i] == r.item && SameKey(r.item, lunid, t)
                && forall j :: 0 <= j < i ==> Skipped(items[j], lunid, t)
    ensures r.NilItemLunid? ==>
              exists i :: 0 <= i < |items| && SamePair(items[i], t) && items[i].lunid.None?
                && forall j :: 0 <= j < i ==> Skipped(items[j], lunid, t)
    ensures r.Missing? <==> forall i :: 0 <= i < |items| ==> Skipped(items[i], lunid, t)
    decreases |items|
  {
    if |items| == 0 then Missing
    else
      var item := items[0];
      if SamePair(item, t) && item.lunid.None? then NilItemLunid
      else if SamePair(item, t) && item.lunid.value == lunid then Found(item)
      else
        var rest := FindKey(items[1..], lunid, t);
        assert forall i :: 0 < i < |items| ==> items[i] == items[1..][i - 1];
        rest
  }

  /** CopyFrom overwrites all four fields and always reports an error. */
  function CopyFrom(t: TargetToExtent, src: TargetToExtent): (r: (TargetToExtent, Option<string>))
    ensures r.0 == src
    ensures r.1.Some?
  {
    (t.(id := src.id, extent := src.extent, lunid := src.lunid, target := src.target), Some(CopyError))
  }

  /** Get: by ID when `t.id > 0`; else, when extent and target are positive,
      by (target, extent, LUN id) over the listing, which panics when `t`'s
      own LUN id is nil; else nothing is asked. */
  function Get(t: TargetToExtent, l: Link): (r: (Answer<TargetToExtent>, Link))
    ensures r.1.script == l.script
    ensures r.0.Panic? ==> t.id <= 0 && t.extent > 0 && t.target > 0
    ensures t.id > 0 ==> r.1.trace == l.trace + [Op(GET, MappingItem(t.id), NoBody)]
    ensures t.id > 0 && Next(l).Replied? ==> r.0 == Answer(Decoded(Next(l)), Some(Next(l).status), None)
    ensures t.id <= 0 && t.extent > 0 && t.target > 0 && t.lunid.None? ==> r == (Panic(NilLunid), l)
    ensures t.id <= 0 && t.extent > 0 && t.target > 0 && t.lunid.Some? && t.lunid.value >= 0 ==>
              r.1.trace == l.trace + [Op(GET, MappingCollection, NoBody)]
    ensures t.id <= 0 && r.0.Answer? && r.0.err.None? ==>
              Next(l).Replied? && Next(l).status == 200 && r.0.status == Some(200)
              && t.lunid.Some? && SameKey(r.0.value, t.lunid.value, t)
              && r.0.value in Listed(Next(l))
    ensures t.id <= 0 && !(t.extent > 0 && t.target > 0 && (t.lunid.None? || t.lunid.value >= 0)) ==>
              r == (Answer(t, None, Some(NotFound)), l)
    ensures r.0.Answer? && r.0.err.Some? ==> r.0.value == t
    ensures r.0.Answer? && r.0.err.None? ==> r.0.status.Some?
  {
    if t.id > 0 then
      var (reply, l') := Send(l, Op(GET, MappingItem(t.id), NoBody));
      match reply
      case NoReply(why) => (Answer(t, None, Some(why)), l')
      case Replied(status, _, _) => (Answer(CopyFrom(t, Decoded(reply)).0, Some(status), None), l')
    else if t.extent > 0 && t.target > 0 && t.lunid.None? then (Panic(NilLunid), l)
    else if t.extent > 0 && t.target > 0 && t.lunid.value >= 0 then
      var (reply, l') := Send(l, Op(GET, MappingCollection, NoBody));
      match reply
      case NoReply(why) => (Answer(t, None, Some(why)), l')
      case Replied(status, message, _) =>
        if status != 200 then (Answer(t, Some(status), Some(message)), l')
        else match FindKey(Listed(reply), t.lunid.value, t)
          case NilItemLunid => (Panic(NilLunid), l')
          case Found(item) => (Answer(CopyFrom(t, item).0, Some(status), None), l')
          case Missing => (Answer(t, None, Some(NotFound)), l')
    else (Answer(t, None, Some(NotFound)), l)
  }

  /** A lookup by key reports a listing refused with its status and message;
      on a listing it adopts the first item of the same key, fails with
      NotFound when every item is passed over, and panics at an earlier item
      of the same pair whose LUN id is nil. */
  lemma GetByKey(t: TargetToExtent, l: Link)
    requires t.id <= 0 && t.extent > 0 && t.target > 0 && t.lunid.Some? && t.lunid.value >= 0
    requires Next(l).Replied?
    ensures var r := Get(t, l);
            && (Next(l).status != 200 ==> r.0 == Answer(t, Some(Next(l).status), Some(Next(l).message)))
            && (Next(l).status == 200 ==>
                  match FindKey(Listed(Next(l)), t.lunid.value, t)
                  case Found(item) => r.0 == Answer(item, Some(200), None)
                  case Missing => r.0 == Answer(t, None, Some(NotFound))
                  case NilItemLunid => r.0 == Panic(NilLunid))
  {
  }

  /** Create posts `t`; only 201 Created counts, and then the returned record
      (ID, extent, LUN id and target) replaces `t`. */
  function Create(t: TargetToExtent, l: Link): (r: (Answer<TargetToExtent>, Link))
    ensures r.0.Answer? && r.1 == Link(l.script, l.trace + [Op(POST, MappingCollection, MappingBody(t))])
    ensures r.0.err.None? <==> Next(l).Replied? && Next(l).status == 201
    ensures r.0.err.None? ==> r.0.value == Decoded(Next(l))
    ensures r.0.err.Some? ==> r.0.value == t
    ensures Next(l).Replied? ==> r.0.status == Some(Next(l).status)
    ensures Next(l).NoReply? ==> r.0.status.None?
  {
    var (reply, l') := Send(l, Op(POST, MappingCollection, MappingBody(t)));
    match reply
    case NoReply(why) => (Answer(t, None, Some(why)), l')
    case Replied(status, message, _) =>
      if status != 201 then (Answer(t, Some(status), Some(message)), l')
      else (Answer(CopyFrom(t, Decoded(reply)).0, Some(status), None), l')
  }

  /** Delete addresses the mapping by ID and checks no status. */
  function Delete(t: TargetToExtent, l: Link): (r: (Answer<TargetToExtent>, Link))
    ensures r.0.Answer? && r.0.value == t
    ensures r.1 == Link(l.script, l.trace + [Op(DELETE, MappingItem(t.id), NoBody)])
    ensures r.0.err.None? <==> Next(l).Replied?
    ensures Next(l).Replied? ==> r.0.status == Some(Next(l).status)
  {
    var (reply, l') := Send(l, Op(DELETE, MappingItem(t.id), NoBody));
    match reply
    case NoReply(why) => (Answer(t, None, Some(why)), l')
    case Replied(status, _, _) => (Answer(t, Some(status), None), l')
  }

  /** A refused create reports the appliance's message, or the transport's
      reason when nothing came back. */
  lemma CreateReports(t: TargetToExtent, l: Link)
    ensures var a := Create(t, l).0;
            a.err.Some? ==> a.err == Some(ErrorText(Next(l)))
  {
  }
}
