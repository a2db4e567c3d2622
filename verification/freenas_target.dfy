/** The iSCSI target client (freenas/target.go). */
module FreenasTarget {
  import opened FreenasTypes
  import opened Appliance

  const NotFound := "no Target has been found"
  const CopyError := "Cannot copy, src is not a Target"

  /** The record a reply carries when the client decodes a success body into
      a Target; anything else decodes to the zero value. */
  function Decoded(reply: Reply): Target
  {
    if reply.Replied? && Is2xx(reply.status) && reply.body.TargetBody? then reply.body.target else ZeroTarget
  }

  /** The targets a successful listing reply carries. */
  function Listed(reply: Reply): seq<Target>
  {
    if reply.Replied? && Is2xx(reply.status) && reply.body.TargetList? then reply.body.targets else []
  }

  /** CopyFrom overwrites all four fields of `t` with those of `src`, and
      reports an error however the copy went (callers ignore it). */
  function CopyFrom(t: Target, src: Target): (r: (Target, Option<string>))
    ensures r.0 == src
    ensures r.1.Some?
  {
    (t.(id := src.id, name := src.name, alias := src.alias, mode := src.mode), Some(CopyError))
  }

  /** Get: by ID when `t.id > 0`, else by name over the full listing, else
      nothing is asked and "no Target has been found" is returned. */
  function Get(t: Target, l: Link): (r: (Answer<Target>, Link))
    ensures r.0.Answer? && r.1.script == l.script
    ensures t.id > 0 ==> r.1.trace == l.trace + [Op(GET, TargetItem(t.id), NoBody)]
    ensures t.id > 0 && Next(l).Replied? ==> r.0 == Answer(Decoded(Next(l)), Some(Next(l).status), None)
    ensures t.id <= 0 && |t.name| > 0 ==> r.1.trace == l.trace + [Op(GET, TargetCollection, NoBody)]
    ensures t.id <= 0 && |t.name| == 0 ==> r == (Answer(t, None, Some(NotFound)), l)
    ensures t.id <= 0 && r.0.err.None? ==>
              Next(l).Replied? && Next(l).status == 200 && r.0.status == Some(200) && r.0.value.name == t.name
              && exists i :: 0 <= i < |Listed(Next(l))| && Listed(Next(l))[i] == r.0.value
                   && forall j :: 0 <= j < i ==> Listed(Next(l))[j].name != t.name
    ensures t.id <= 0 && |t.name| > 0 && Next(l).Replied? && Next(l).status == 200 ==>
              (r.0.err.None? <==> exists i :: 0 <= i < |Listed(Next(l))| && Listed(Next(l))[i].name == t.name)
    ensures r.0.err.Some? ==> r.0.value == t
    ensures r.0.err.None? ==> r.0.status.Some?
    ensures Next(l).NoReply? ==> r.0.err.Some? && r.0.status.None?
  {
    if t.id > 0 then
      var (reply, l') := Send(l, Op(GET, TargetItem(t.id), NoBody));
      match reply
      case NoReply(why) => (Answer(t, None, Some(why)), l')
      case Replied(status, _, _) => (Answer(CopyFrom(t, Decoded(reply)).0, Some(status), None), l')
    else if |t.name| > 0 then
      var (reply, l') := Send(l, Op(GET, TargetCollection, NoBody));
      match reply
      case NoReply(why) => (Answer(t, None, Some(why)), l')
      case Replied(status, message, _) =>
        if status != 200 then (Answer(t, Some(status), Some(message)), l')
        else match FirstMatch(Listed(reply), (item: Target) => item.name == t.name)
          case Some(item) => (Answer(CopyFrom(t, item).0, Some(status), None), l')
          case None => (Answer(t, None, Some(NotFound)), l')
    else (Answer(t, None, Some(NotFound)), l)
  }

  /** GetByName, despite its name, fetches the target by ID; on success it
      returns a nil response. */
  function GetByName(t: Target, l: Link): (r: (Answer<Target>, Link))
    ensures r.0.Answer? && r.1 == Link(l.script, l.trace + [Op(GET, TargetItem(t.id), NoBody)])
    ensures r.0.err.None? <==> Next(l).Replied?
    ensures r.0.err.None? ==> r.0.status.None? && r.0.value == Decoded(Next(l))
    ensures r.0.err.Some? ==> r.0.value == t
  {
    var (reply, l') := Send(l, Op(GET, TargetItem(t.id), NoBody));
    match reply
    case NoReply(why) => (Answer(t, None, Some(why)), l')
    case Replied(_, _, _) => (Answer(CopyFrom(t, Decoded(reply)).0, None, None), l')
  }

  /** Create posts `t`; only 201 Created counts, and then the returned record
      (with its new ID) replaces `t`. Any other reply is an error and leaves
      `t` as it was. */
  function Create(t: Target, l: Link): (r: (Answer<Target>, Link))
    ensures r.0.Answer? && r.1 == Link(l.script, l.trace + [Op(POST, TargetCollection, TargetBody(t))])
    ensures r.0.err.None? <==> Next(l).Replied? && Next(l).status == 201
    ensures r.0.err.None? ==> r.0.value == Decoded(Next(l))
    ensures r.0.err.Some? ==> r.0.value == t
    ensures Next(l).Replied? ==> r.0.status == Some(Next(l).status)
    ensures Next(l).NoReply? ==> r.0.status.None?
  {
    var (reply, l') := Send(l, Op(POST, TargetCollection, TargetBody(t)));
    match reply
    case NoReply(why) => (Answer(t, None, Some(why)), l')
    case Replied(status, message, _) =>
      if status != 201 then (Answer(t, Some(status), Some(message)), l')
      else (Answer(CopyFrom(t, Decoded(reply)).0, Some(status), None), l')
  }

  /** Delete addresses the target by ID; only 204 No Content counts. */
  function Delete(t: Target, l: Link): (r: (Answer<Target>, Link))
    ensures r.0.Answer? && r.0.value == t
    ensures r.1 == Link(l.script, l.trace + [Op(DELETE, TargetItem(t.id), NoBody)])
    ensures r.0.err.None? <==> Next(l).Replied? && Next(l).status == 204
    ensures Next(l).Replied? ==> r.0.status == Some(Next(l).status)
    ensures Next(l).NoReply? ==> r.0.status.None?
  {
    var (reply, l') := Send(l, Op(DELETE, TargetItem(t.id), NoBody));
    match reply
    case NoReply(why) => (Answer(t, None, Some(why)), l')
    case Replied(status, message, _) =>
      if status != 204 then (Answer(t, Some(status), Some(message)), l')
      else (Answer(t, Some(status), None), l')
  }

  /** A refused delete reports the appliance's message, or the transport's
      reason when nothing came back. */
  lemma DeleteReports(t: Target, l: Link)
    ensures var a := Delete(t, l).0;
            a.err.Some? ==> a.err == Some(ErrorText(Next(l)))
  {
  }

  /** A refused create reports the appliance's message, or the transport's
      reason when nothing came back. */
  lemma CreateReports(t: Target, l: Link)
    ensures var a := Create(t, l).0;
            a.err.Some? ==> a.err == Some(ErrorText(Next(l)))
  {
  }
}
