/** The storage appliance as the client sees it: a conversation of HTTP
    requests, each answered by the next reply of a script. Nothing is known
    about the appliance beyond the replies it gives, so every property of the
    provisioner holds for every script. */
module Appliance {
  import opened FreenasTypes

  /** The resource collections of the appliance's v1.0 API. */
  datatype Kind = GlobalConfigKind | DatasetKind | ZvolKind | TargetKind | GroupKind | ExtentKind | MappingKind

  /** The API paths the client addresses. */
  datatype Endpoint =
    | GlobalConfiguration                   // services/iscsi/globalconfiguration/
    | DatasetItem(path: string)             // storage/dataset/<path>/
    | DatasetParent(parent: string)         // storage/dataset/<parent>
    | ZvolCollection(pool: string)          // storage/volume/<pool>/zvols/
    | ZvolItem(pool: string, name: string)  // storage/volume/<pool>/zvols/<name>/
    | TargetCollection                      // services/iscsi/target/
    | TargetItem(id: GoInt)                 // services/iscsi/target/<id>/
    | GroupCollection                       // services/iscsi/targetgroup/
    | GroupItem(id: GoInt)                  // services/iscsi/targetgroup/<id>/
    | ExtentCollection                      // services/iscsi/extent/
    | ExtentItem(id: GoInt)                 // services/iscsi/extent/<id>/
    | MappingCollection                     // services/iscsi/targettoextent/
    | MappingItem(id: GoInt)                // services/iscsi/targettoextent/<id>/

  function KindOf(e: Endpoint): Kind
  {
    match e
    case GlobalConfiguration => GlobalConfigKind
    case DatasetItem(_) => DatasetKind
    case DatasetParent(_) => DatasetKind
    case ZvolCollection(_) => ZvolKind
    case ZvolItem(_, _) => ZvolKind
    case TargetCollection => TargetKind
    case TargetItem(_) => TargetKind
    case GroupCollection => GroupKind
    case GroupItem(_) => GroupKind
    case ExtentCollection => ExtentKind
    case ExtentItem(_) => ExtentKind
    case MappingCollection => MappingKind
    case MappingItem(_) => MappingKind
  }

  /** A JSON document, sent or received. A listing of a collection is one of
      the `...List` forms; `Cascade` is the body of a zvol deletion. */
  datatype Body =
    | NoBody
    | DatasetBody(dataset: Dataset)
    | ZvolBody(zvol: Zvol)
    | TargetBody(target: Target)
    | TargetList(targets: seq<Target>)
    | GroupBody(group: TargetGroup)
    | GroupList(groups: seq<TargetGroup>)
    | ExtentBody(extent: Extent)
    | ExtentList(extents: seq<Extent>)
    | MappingBody(mapping: TargetToExtent)
    | MappingList(mappings: seq<TargetToExtent>)
    | Cascade(cascade: bool)

  /** The appliance's answer to one request: none at all (the transport
      failed, the client gets a nil response), or a status code, the error
      message it carries and the decoded body. */
  datatype Reply = NoReply(reason: string) | Replied(status: int, message: string, body: Body)

  datatype Verb = GET | POST | DELETE

  /** One HTTP request, as it appears in a trace. */
  datatype Op = Op(verb: Verb, at: Endpoint, sent: Body)

  /** The connection: the scripted replies and the requests issued so far.
      The i-th request is answered by the i-th reply. */
  datatype Link = Link(script: seq<Reply>, trace: seq<Op>)

  /** The text of the error a client reports for a reply it refuses: the
      appliance's message, or the transport's reason when nothing came back. */
  function ErrorText(reply: Reply): string
  {
    match reply
    case NoReply(why) => why
    case Replied(_, message, _) => message
  }

  /** The reply the next request will get; a script that has run out answers
      nothing. */
  function Next(l: Link): Reply
  {
    if |l.trace| < |l.script| then l.script[|l.trace|] else NoReply("no reply scripted")
  }

  /** Issues `op` and returns the appliance's reply. */
  function Send(l: Link, op: Op): (r: (Reply, Link))
    ensures r.0 == Next(l)
    ensures r.1 == Link(l.script, l.trace + [op])
  {
    (Next(l), Link(l.script, l.trace + [op]))
  }

  /** A Go dereference that panics: of a nil *http.Response, or of a nil
      LUN id pointer. */
  datatype Fault = NilResponse | NilLunid

  /** What a client method returns: the (possibly updated) resource, the
      response status (None for a nil *http.Response) and the error (None for
      nil); or a panic inside the client method itself. */
  datatype Answer<T> = Answer(value: T, status: Option<int>, err: Option<string>) | Panic(fault: Fault)

  predicate Is2xx(status: int)
  {
    200 <= status < 300
  }

  /** The first listed item that satisfies the natural-key test `p`. */
  function FirstMatch<T>(items: seq<T>, p: T -> bool): (r: Option<T>)
    ensures r.None? <==> forall i :: 0 <= i < |items| ==> !p(items[i])
    ensures r.Some? ==> exists i :: 0 <= i < |items| && items[i] == r.value && p(items[i])
                          && forall j :: 0 <= j < i ==> !p(items[j])
    decreases |items|
  {
    if |items| == 0 then None
    else if p(items[0]) then Some(items[0])
    else
      var rest := FirstMatch(items[1..], p);
      assert forall i :: 0 < i < |items| ==> items[i] == items[1..][i - 1];
      rest
  }
}
