/** The dataset client (freenas/dataset.go). */
module FreenasDataset {
  import opened FreenasTypes
  import opened Appliance
  import opened FilePath

  const CopyError := "Cannot copy, src is not a Dataset"

  function Decoded(reply: Reply): Dataset
  {
    if reply.Replied? && Is2xx(reply.status) && reply.body.DatasetBody? then reply.body.dataset else ZeroDataset
  }

  /** String: the dataset's full path, its name joined below its pool. */
  function String(d: Dataset): (r: string)
    ensures IsPlain(d.pool) && IsPlain(d.name) ==> r == d.pool + "/" + d.name
    ensures d.pool == "" && d.name == "" ==> r == ""
  {
    if IsPlain(d.pool) && IsPlain(d.name) then
      PlainJoin(d.pool, d.name);
      JoinPath(d.pool, d.name)
    else JoinPath(d.pool, d.name)
  }

  /** CopyFrom overwrites every field and always reports an error. */
  function CopyFrom(d: Dataset, src: Dataset): (r: (Dataset, Option<string>))
    ensures r.0 == src
    ensures r.1.Some?
  {
    (d.(avail := src.avail, mountpoint := src.mountpoint, name := src.name, pool := src.pool,
        recordsize := src.recordsize, refquota := src.refquota, refreservation := src.refreservation,
        refer := src.refer, used := src.used, comments := src.comments),
     Some(CopyError))
  }

  /** Get fetches the dataset by name; only 200 OK counts, and then the
      returned record (with its pool and full name) replaces `d`. */
  function Get(d: Dataset, l: Link): (r: (Answer<Dataset>, Link))
    ensures r.0.Answer? && r.1 == Link(l.script, l.trace + [Op(GET, DatasetItem(d.name), NoBody)])
    ensures r.0.err.None? <==> Next(l).Replied? && Next(l).status == 200
    ensures r.0.err.None? ==> r.0.value == Decoded(Next(l)) && r.0.status == Some(200)
    ensures r.0.err.Some? ==> r.0.value == d
  {
    var (reply, l') := Send(l, Op(GET, DatasetItem(d.name), NoBody));
    match reply
    case NoReply(why) => (Answer(d, None, Some(why)), l')
    case Replied(status, message, _) =>
      if status != 200 then (Answer(d, Some(status), Some(message)), l')
      else (Answer(CopyFrom(d, Decoded(reply)).0, Some(status), None), l')
  }

  /** A refused read reports the appliance's message, or the transport's
      reason when nothing came back. */
  lemma GetReports(d: Dataset, l: Link)
    ensures var a := Get(d, l).0;
            a.err.Some? ==> a.err == Some(ErrorText(Next(l)))
  {
  }

  /** Create splits the name into its parent path and last element, posts
      the dataset to the parent with only the last element as its name, and
      then rejoins the two, whatever the reply. Only 201 Created counts, and
      then the returned record replaces `d`. */
  function Create(d: Dataset, l: Link): (r: (Answer<Dataset>, Link))
    ensures r.0.Answer? && r.1.script == l.script
    ensures r.1.trace == l.trace + [Op(POST, DatasetParent(SplitPath(d.name).0),
                                       DatasetBody(d.(name := SplitPath(d.name).1)))]
    ensures r.0.err.None? <==> Next(l).Replied? && Next(l).status == 201
    ensures r.0.err.None? ==> r.0.value == Decoded(Next(l))
    ensures r.0.err.Some? ==> r.0.value == d.(name := JoinPath(SplitPath(d.name).0, SplitPath(d.name).1))
  {
    var parent := SplitPath(d.name).0;
    var last := SplitPath(d.name).1;
    var (reply, l') := Send(l, Op(POST, DatasetParent(parent), DatasetBody(d.(name := last))));
    var rejoined := d.(name := JoinPath(parent, last));
    match reply
    case NoReply(why) => (Answer(rejoined, None, Some(why)), l')
    case Replied(status, message, _) =>
      if status != 201 then (Answer(rejoined, Some(status), Some(message)), l')
      else (Answer(CopyFrom(rejoined, Decoded(reply)).0, Some(status), None), l')
  }

  /** The parent path and the name posted split the dataset's name between
      them, and a failed Create leaves the dataset under its cleaned name:
      unchanged when the name was already plain. */
  lemma CreateRestoresName(d: Dataset, l: Link)
    ensures var op := Create(d, l).1.trace[|l.trace|];
            op.at.parent + op.sent.dataset.name == d.name && '/' !in op.sent.dataset.name
    ensures var a := Create(d, l).0;
            && (a.err.Some? && d.name != "" ==> a.value.name == Clean(d.name))
            && (a.err.Some? && IsPlain(d.name) ==> a.value == d)
  {
    JoinSplitPath(d.name);
    if IsPlain(d.name) {
      PlainSplitJoin(d.name);
    }
  }

  /** Delete addresses the dataset by name; only 204 No Content counts. */
  function Delete(d: Dataset, l: Link): (r: (Answer<Dataset>, Link))
    ensures r.0.Answer? && r.0.value == d
    ensures r.1 == Link(l.script, l.trace + [Op(DELETE, DatasetItem(d.name), NoBody)])
    ensures r.0.err.None? <==> Next(l).Replied? && Next(l).status == 204
    ensures Next(l).Replied? ==> r.0.status == Some(Next(l).status)
    ensures Next(l).NoReply? ==> r.0.status.None?
  {
    var (reply, l') := Send(l, Op(DELETE, DatasetItem(d.name), NoBody));
    match reply
    case NoReply(why) => (Answer(d, None, Some(why)), l')
    case Replied(status, message, _) =>
      if status != 204 then (Answer(d, Some(status), Some(message)), l')
      else (Answer(d, Some(status), None), l')
  }
}
