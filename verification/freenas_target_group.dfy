/** The target-group client (freenas/target_group.go). */
module FreenasTargetGroup {
  import opened FreenasTypes
  import opened Appliance

  // freenas/target_group.go reuses the target's wording here.
  const NotFound := "no Target has been found"
  const CopyError := "Cannot copy, src is not a TargetGroup"

  function Decoded(reply: Reply): TargetGroup
  {
    if reply.Replied? && Is2xx(reply.status) && reply.body.GroupBody? then reply.body.group else ZeroTargetGroup
  }

  function Listed(reply: Reply): seq<TargetGroup>
  {
    if reply.Replied? && Is2xx(reply.status) && reply.body.GroupList? then reply.body.groups else []
  }

  /** The natural key of a target group: its target and its portal group. */
  predicate SameKey(item: TargetGroup, t: TargetGroup)
  {
    item.target == t.target && item.portalgroup == t.portalgroup
  }

  /** CopyFrom overwrites all seven fields and always reports an error. */
  function CopyFrom(t: TargetGroup, src: TargetGroup): (r: (TargetGroup, Option<string>))
    ensures r.0 == src
    ensures r.1.Some?
  {
    (t.(id := src.id, target := src.target, authgroup := src.authgroup, authtype := src.authtype,
        initialdigest := src.initialdigest, initiatorgroup := src.initiatorgroup,
        portalgroup := src.portalgroup),
     Some(CopyError))
  }

  /** Get: by ID when `t.id > 0`; else, when both the portal group and the
      target are positive, the first listed group with the same pair; else
      nothing is asked. */
  function Get(t: TargetGroup, l: Link): (r: (Answer<TargetGroup>, Link))
    ensures r.0.Answer? && r.1.script == l.script
    ensures t.id > 0 ==> r.1.trace == l.trace + [Op(GET, GroupItem(t.id), NoBody)]
    ensures t.id > 0 && Next(l).Replied? ==> r.0 == Answer(Decoded(Next(l)), Some(Next(l).status), None)
    ensures t.id <= 0 && t.portalgroup > 0 && t.target > 0 ==>
              r.1.trace == l.trace + [Op(GET, GroupCollection, NoBody)]
    ensures t.id <= 0 && !(t.portalgroup > 0 && t.target > 0) ==> r == (Answer(t, None, Some(NotFound)), l)
    ensures t.id <= 0 && r.0.err.None? ==>
              Next(l).Replied? && Next(l).status == 200 && r.0.status == Some(200) && SameKey(r.0.value, t)
              && exists i :: 0 <= i < |Listed(Next(l))| && Listed(Next(l))[i] == r.0.value
                   && forall j :: 0 <= j < i ==> !SameKey(Listed(Next(l))[j], t)
    ensures t.id <= 0 && t.portalgroup > 0 && t.target > 0 && Next(l).Replied? && Next(l).status == 200 ==>
              (r.0.err.None? <==> exists i :: 0 <= i < |Listed(Next(l))| && SameKey(Listed(Next(l))[i], t))
    ensures r.0.err.Some? ==> r.0.value == t
    ensures r.0.err.None? ==> r.0.status.Some?
    ensures Next(l).NoReply? ==> r.0.err.Some? && r.0.status.None?
  {
    if t.id > 0 then
      var (reply, l') := Send(l, Op(GET, GroupItem(t.id), NoBody));
      match reply
      case NoReply(why) => (Answer(t, None, Some(why)), l')
      case Replied(status, _, _) => (Answer(CopyFrom(t, Decoded(reply)).0, Some(status), None), l')
    else if t.portalgroup > 0 && t.target > 0 then
      var (reply, l') := Send(l, Op(GET, GroupCollection, NoBody));
      match reply
      case NoReply(why) => (Answer(t, None, Some(why)), l')
      case Replied(status, message, _) =>
        if status != 200 then (Answer(t, Some(status), Some(message)), l')
        else match FirstMatch(Listed(reply), (item: TargetGroup) => SameKey(item, t))
          case Some(item) => (Answer(CopyFrom(t, item).0, Some(status), None), l')
          case None => (Answer(t, None, Some(NotFound)), l')
    else (Answer(t, None, Some(NotFound)), l)
  }

  /** Create posts `t`; only 201 Created counts, and then the returned record
      replaces `t`. */
  function Create(t: TargetGroup, l: Link): (r: (Answer<TargetGroup>, Link))
    ensures r.0.Answer? && r.1 == Link(l.script, l.trace + [Op(POST, GroupCollection, GroupBody(t))])
    ensures r.0.err.None? <==> Next(l).Replied? && Next(l).status == 201
    ensures r.0.err.None? ==> r.0.value == Decoded(Next(l))
    ensures r.0.err.Some? ==> r.0.value == t
    ensures Next(l).Replied? ==> r.0.status == Some(Next(l).status)
    ensures Next(l).NoReply? ==> r.0.status.None?
  {
    var (reply, l') := Send(l, Op(POST, GroupCollection, GroupBody(t)));
    match reply
    case NoReply(why) => (Answer(t, None, Some(why)), l')
    case Replied(status, message, _) =>
      if status != 201 then (Answer(t, Some(status), Some(message)), l')
      else (Answer(CopyFrom(t, Decoded(reply)).0, Some(status), None), l')
  }

  /** Delete addresses the group by ID and checks no status: only a missing
      response is an error. */
  function Delete(t: TargetGroup, l: Link): (r: (Answer<TargetGroup>, Link))
    ensures r.0.Answer? && r.0.value == t
    ensures r.1 == Link(l.script, l.trace + [Op(DELETE, GroupItem(t.id), NoBody)])
    ensures r.0.err.None? <==> Next(l).Replied?
    ensures Next(l).Replied? ==> r.0.status == Some(Next(l).status)
  {
    var (reply, l') := Send(l, Op(DELETE, GroupItem(t.id), NoBody));
    match reply
    case NoReply(why) => (Answer(t, None, Some(why)), l')
    case Replied(status, _, _) => (Answer(t, Some(status), None), l')
  }

  /** A refused create reports the appliance's message, or the transport's
      reason when nothing came back. */
  lemma CreateReports(t: TargetGroup, l: Link)
    ensures var a := Create(t, l).0;
            a.err.Some? ==> a.err == Some(ErrorText(Next(l)))
  {
  }
}
