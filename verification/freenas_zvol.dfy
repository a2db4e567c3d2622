/** The zvol client (freenas/zvol.go). A zvol is addressed through the pool
    of the dataset it belongs to. */
module FreenasZvol {
  import opened FreenasTypes
  import opened Appliance

  const CopyError := "Cannot copy, src is not a Zvol"

  function Decoded(reply: Reply): Zvol
  {
    if reply.Replied? && Is2xx(reply.status) && reply.body.ZvolBody? then reply.body.zvol else ZeroZvol
  }

  /** CopyFrom overwrites every field but `dataset`, which the appliance never
      sends, and always reports an error. */
  function CopyFrom(z: Zvol, src: Zvol): (r: (Zvol, Option<string>))
    ensures r.0.dataset == z.dataset
    ensures r.0 == src.(dataset := z.dataset)
    ensures r.1.Some?
  {
    (z.(name := src.name, avail := src.avail, comments := src.comments, compression := src.compression,
        dedup := src.dedup, refer := src.refer, used := src.used, volsize := src.volsize,
        sparse := src.sparse, force := src.force, blocksize := src.blocksize),
     Some(CopyError))
  }

  /** Get fetches the zvol by pool and name; any response counts, and the
      decoded record (the zero value for a non-2xx status) replaces `z` but
      its dataset. */
  function Get(z: Zvol, l: Link): (r: (Answer<Zvol>, Link))
    ensures r.0.Answer? && r.1 == Link(l.script, l.trace + [Op(GET, ZvolItem(z.dataset.pool, z.name), NoBody)])
    ensures r.0.err.None? <==> Next(l).Replied?
    ensures r.0.err.None? ==> r.0.value == Decoded(Next(l)).(dataset := z.dataset)
    ensures r.0.err.Some? ==> r.0.value == z
  {
    var (reply, l') := Send(l, Op(GET, ZvolItem(z.dataset.pool, z.name), NoBody));
    match reply
    case NoReply(why) => (Answer(z, None, Some(why)), l')
    case Replied(status, _, _) => (Answer(CopyFrom(z, Decoded(reply)).0, Some(status), None), l')
  }

  /** Create posts `z` to its pool's zvol collection. Only 202 Accepted
      counts: creation completes later, so nothing is read back and `z` is
      returned unchanged whatever the reply. */
  function Create(z: Zvol, l: Link): (r: (Answer<Zvol>, Link))
    ensures r.0.Answer? && r.0.value == z
    ensures r.1 == Link(l.script, l.trace + [Op(POST, ZvolCollection(z.dataset.pool), ZvolBody(z))])
    ensures r.0.err.None? <==> Next(l).Replied? && Next(l).status == 202
    ensures Next(l).Replied? ==> r.0.status == Some(Next(l).status)
    ensures Next(l).Replied? && r.0.err.Some? ==> r.0.err == Some(Next(l).message)
    ensures Next(l).NoReply? ==> r.0.status.None?
  {
    var (reply, l') := Send(l, Op(POST, ZvolCollection(z.dataset.pool), ZvolBody(z)));
    match reply
    case NoReply(why) => (Answer(z, None, Some(why)), l')
    case Replied(status, message, _) =>
      if status != 202 then (Answer(z, Some(status), Some(message)), l')
      else (Answer(z, Some(status), None), l')
  }

  /** Delete addresses the zvol by pool and name and always asks for a
      cascading delete; only 204 No Content counts. Without a response the
      status check dereferences nil and panics. */
  function Delete(z: Zvol, l: Link): (r: (Answer<Zvol>, Link))
    ensures r.1 == Link(l.script, l.trace + [Op(DELETE, ZvolItem(z.dataset.pool, z.name), Cascade(true))])
    ensures r.0.Panic? <==> Next(l).NoReply?
    ensures r.0.Panic? ==> r.0.fault == NilResponse
    ensures r.0.Answer? ==> r.0.value == z && r.0.status == Some(Next(l).status)
    ensures r.0.Answer? ==> (r.0.err.None? <==> Next(l).status == 204)
    ensures r.0.Answer? && r.0.err.Some? ==> r.0.err == Some(Next(l).message)
  {
    var (reply, l') := Send(l, Op(DELETE, ZvolItem(z.dataset.pool, z.name), Cascade(true)));
    match reply
    case NoReply(_) => (Panic(NilResponse), l')
    case Replied(status, message, _) =>
      if status != 204 then (Answer(z, Some(status), Some(message)), l')
      else (Answer(z, Some(status), None), l')
  }
}
