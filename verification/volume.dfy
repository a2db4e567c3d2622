/** What the provisioner is given and what it hands back: the resolved
    storage-class configuration, the volume request, the PersistentVolume
    descriptor with its annotations, and the outcome of a run against the
    appliance. */
module Volume {
  import opened FreenasTypes
  import opened Appliance
  import opened ProvisionerNaming

  /** The storage-class configuration after defaults and parameters are
      resolved (freenasProvisionerConfig, minus the server connection). */
  datatype Config = Config(
    fsType: string,
    targetPortal: string,
    portals: string,
    iscsiNamePrefix: string,
    iscsiNameSuffix: string,
    iscsiInterface: string,
    datasetParentName: string,
    targetGroupAuthgroup: GoInt,
    targetGroupAuthtype: string,
    targetGroupInitiatorgroup: GoInt,
    targetGroupPortalgroup: GoInt,
    zvolCompression: string,
    zvolDedup: string,
    zvolSparse: bool,
    zvolForce: bool,
    zvolBlocksize: string,
    extentBlocksize: GoInt,
    extentDisablePhysicalBlocksize: bool,
    extentAvailThreshold: GoInt,
    extentInsecureTpc: bool,
    extentXen: bool,
    extentRpm: string,
    extentReadOnly: bool)

  /** The claim a volume is provisioned for. `storage` is the requested
      capacity and `volsize` its rendering in GiB, both taken as given. */
  datatype Claim = Claim(
    clusterName: string,
    namespace: string,
    name: string,
    accessModes: seq<AccessMode>,
    storage: string,
    volsize: string,
    volumeMode: string)

  /** controller.VolumeOptions: the name chosen for the PV, its reclaim
      policy and the claim. */
  datatype VolumeOptions = VolumeOptions(pvName: string, reclaimPolicy: string, claim: Claim)

  /** The iSCSI source of a PersistentVolume. */
  datatype ISCSISource = ISCSISource(
    targetPortal: string,
    portals: seq<string>,
    iqn: string,
    iscsiInterface: string,
    lun: int,
    readOnly: bool,
    fsType: string)

  /** The PersistentVolume the provisioner returns. */
  datatype PersistentVolume = PersistentVolume(
    name: string,
    annotations: map<string, string>,
    reclaimPolicy: string,
    accessModes: seq<AccessMode>,
    capacity: string,
    volumeMode: string,
    iscsi: ISCSISource)

  const IdentityKey := "freenasISCSIProvisionerIdentity"
  const DatasetParentKey := "datasetParent"
  const PoolKey := "pool"
  const ZvolKey := "zvol"
  const IscsiNameKey := "iscsiName"
  const TargetIdKey := "targetId"
  const TargetGroupIdKey := "targetGroupId"
  const ExtentIdKey := "extentId"
  const TargetToExtentIdKey := "targetToExtentId"

  /** Go's `m[k]`: the empty string for a missing key. */
  function Annotation(m: map<string, string>, key: string): (r: string)
    ensures key in m ==> r == m[key]
    ensures key !in m ==> r == ""
  {
    if key in m then m[key] else ""
  }

  /** Why a run stopped without a result. `Remote` carries the kind of
      resource whose request failed and the error text. */
  datatype Failure =
    | InvalidAccessModes
    | DiskNameTooLong(disk: string)
    | EmptyZvolName
    | MissingAnnotation(key: string)
    | Remote(kind: Kind, text: string)

  /** A run either returns a value, returns an error, or panics. */
  datatype Outcome<T> = Ok(value: T) | Failed(failure: Failure) | Crashed(fault: Fault)

  /** The outcome of a run and every request it issued, in order. */
  datatype Run<T> = Run(outcome: Outcome<T>, trace: seq<Op>)

  /** The last request issued on `l` got no reply: the client saw a nil
      response. */
  predicate Unanswered(l: Link)
  {
    |l.trace| > 0 && (|l.trace| > |l.script| || l.script[|l.trace| - 1].NoReply?)
  }

  /** After a request on `l`, the reply it got was `Next(l)`. */
  lemma SentUnanswered(l: Link, op: Op)
    ensures Next(l).NoReply? <==> Unanswered(Send(l, op).1)
  {
  }
}
