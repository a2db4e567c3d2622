/** The iSCSI extent client (freenas/extent.go). */
module FreenasExtent {
  import opened FreenasTypes
  import opened Appliance

  const NotFound := "no Extent has been found"
  const CopyError := "Cannot copy, src is not a Extent"

  function Decoded(reply: Reply): Extent
  {
    if reply.Replied? && Is2xx(reply.status) && reply.body.ExtentBody? then reply.body.extent else ZeroExtent
  }

  function Listed(reply: Reply): seq<Extent>
  {
    if reply.Replied? && Is2xx(reply.status) && reply.body.ExtentList? then reply.body.extents else []
  }

  /** CopyFrom overwrites every field but `disk`, which keeps the device path
      the client asked for, and always reports an error. */
  function CopyFrom(e: Extent, src: Extent): (r: (Extent, Option<string>))
    ensures r.0.disk == e.disk
    ensures r.0 == src.(disk := e.disk)
    ensures r.1.Some?
  {
    (e.(id := src.id, availThreshold := src.availThreshold, blocksize := src.blocksize,
        comment := src.comment, filesize := src.filesize, insecureTpc := src.insecureTpc,
        legacy := src.legacy, naa := src.naa, name := src.name, path := src.path,
        pblocksize := src.pblocksize, ro := src.ro, rpm := src.rpm, serial := src.serial,
        extentType := src.extentType, xen := src.xen),
     Some(CopyError))
  }

  /** Get: by ID when `e.id > 0`, else by name over the full listing, else
      nothing is asked. */
  function Get(e: Extent, l: Link): (r: (Answer<Extent>, Link))
    ensures r.0.Answer? && r.1.script == l.script
    ensures e.id > 0 ==> r.1.trace == l.trace + [Op(GET, ExtentItem(e.id), NoBody)]
    ensures e.id > 0 && Next(l).Replied? ==>
              r.0 == Answer(Decoded(Next(l)).(disk := e.disk), Some(Next(l).status), None)
    ensures e.id <= 0 && |e.name| > 0 ==> r.1.trace == l.trace + [Op(GET, ExtentCollection, NoBody)]
    ensures e.id <= 0 && |e.name| == 0 ==> r == (Answer(e, None, Some(NotFound)), l)
    ensures e.id <= 0 && r.0.err.None? ==>
              Next(l).Replied? && Next(l).status == 200 && r.0.status == Some(200)
              && r.0.value.name == e.name && r.0.value.disk == e.disk
              && exists i :: 0 <= i < |Listed(Next(l))| && Listed(Next(l))[i].(disk := e.disk) == r.0.value
                   && forall j :: 0 <= j < i ==> Listed(Next(l))[j].name != e.name
    ensures e.id <= 0 && |e.name| > 0 && Next(l).Replied? && Next(l).status == 200 ==>
              (r.0.err.None? <==> exists i :: 0 <= i < |Listed(Next(l))| && Listed(Next(l))[i].name == e.name)
    ensures r.0.err.Some? ==> r.0.value == e
    ensures r.0.err.None? ==> r.0.status.Some?
  {
    if e.id > 0 then
      var (reply, l') := Send(l, Op(GET, ExtentItem(e.id), NoBody));
      match reply
      case NoReply(why) => (Answer(e, None, Some(why)), l')
      case Replied(status, _, _) => (Answer(CopyFrom(e, Decoded(reply)).0, Some(status), None), l')
    else if |e.name| > 0 then
      var (reply, l') := Send(l, Op(GET, ExtentCollection, NoBody));
      match reply
      case NoReply(why) => (Answer(e, None, Some(why)), l')
      case Replied(status, message, _) =>
        if status != 200 then (Answer(e, Some(status), Some(message)), l')
        else match FirstMatch(Listed(reply), (item: Extent) => item.name == e.name)
          case Some(item) => (Answer(CopyFrom(e, item).0, Some(status), None), l')
          case None => (Answer(e, None, Some(NotFound)), l')
    else (Answer(e, None, Some(NotFound)), l)
  }

  /** Create posts `e`; a transport failure yields a nil response, only 201
      Created counts, and then the returned record replaces every field of
      `e` but its disk. */
  function Create(e: Extent, l: Link): (r: (Answer<Extent>, Link))
    ensures r.0.Answer? && r.1 == Link(l.script, l.trace + [Op(POST, ExtentCollection, ExtentBody(e))])
    ensures r.0.err.None? <==> Next(l).Replied? && Next(l).status == 201
    ensures r.0.err.None? ==> r.0.value == Decoded(Next(l)).(disk := e.disk)
    ensures r.0.err.Some? ==> r.0.value == e
    ensures Next(l).Replied? ==> r.0.status == Some(Next(l).status)
    ensures Next(l).NoReply? ==> r.0.status.None?
  {
    var (reply, l') := Send(l, Op(POST, ExtentCollection, ExtentBody(e)));
    match reply
    case NoReply(why) => (Answer(e, None, Some(why)), l')
    case Replied(status, message, _) =>
      if status != 201 then (Answer(e, Some(status), Some(message)), l')
      else (Answer(CopyFrom(e, Decoded(reply)).0, Some(status), None), l')
  }

  /** Delete addresses the extent by ID; only 204 No Content counts. Without
      a response the status check dereferences nil and panics. */
  function Delete(e: Extent, l: Link): (r: (Answer<Extent>, Link))
    ensures r.1 == Link(l.script, l.trace + [Op(DELETE, ExtentItem(e.id), NoBody)])
    ensures r.0.Panic? <==> Next(l).NoReply?
    ensures r.0.Panic? ==> r.0.fault == NilResponse
    ensures r.0.Answer? ==> r.0.value == e && r.0.status == Some(Next(l).status)
    ensures r.0.Answer? ==> (r.0.err.None? <==> Next(l).status == 204)
  {
    var (reply, l') := Send(l, Op(DELETE, ExtentItem(e.id), NoBody));
    match reply
    case NoReply(_) => (Panic(NilResponse), l')
    case Replied(status, message, _) =>
      if status != 204 then (Answer(e, Some(status), Some(message)), l')
      else (Answer(e, Some(status), None), l')
  }

  /** A refused delete reports the appliance's message. */
  lemma DeleteReports(e: Extent, l: Link)
    ensures var a := Delete(e, l).0;
            a.Answer? && a.err.Some? ==> a.err == Some(Next(l).message)
  {
  }

  /** A refused create reports the appliance's message, or the transport's
      reason when nothing came back. */
  lemma CreateReports(t: Extent, l: Link)
    ensures var a := Create(t, l).0;
            a.err.Some? ==> a.err == Some(ErrorText(Next(l)))
  {
  }
}
