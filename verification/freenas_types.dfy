/** The appliance's resource records, as the client decodes them from JSON.
    Every Go `int`/`int64` field is a `GoInt`: JSON decoding never yields a
    value outside the 64-bit range. */
module FreenasTypes {

  /** Go's `int` on the 64-bit platforms the provisioner runs on. */
  type GoInt = x: int | -0x8000_0000_0000_0000 <= x < 0x8000_0000_0000_0000

  const MaxGoInt: int := 0x7FFF_FFFF_FFFF_FFFF
  const MinGoInt: int := -0x8000_0000_0000_0000

  /** A value that may be absent: a nil pointer or a missing map key. */
  datatype Option<+T> = None | Some(value: T)

  /** A ZFS dataset (dataset.go). `name` is the path below the API root. */
  datatype Dataset = Dataset(
    avail: GoInt,
    mountpoint: string,
    name: string,
    pool: string,
    recordsize: GoInt,
    refquota: GoInt,
    refreservation: GoInt,
    refer: GoInt,
    used: GoInt,
    comments: string)

  /** A zvol (zvol.go); `dataset` is never sent to or read from the appliance. */
  datatype Zvol = Zvol(
    name: string,
    avail: GoInt,
    comments: string,
    compression: string,
    dedup: string,
    refer: GoInt,
    used: GoInt,
    volsize: string,
    sparse: bool,
    force: bool,
    blocksize: string,
    dataset: Dataset)

  /** An iSCSI target (target.go). */
  datatype Target = Target(id: GoInt, name: string, alias: string, mode: string)

  /** A target group binding a target to portal, initiator and auth groups (target_group.go). */
  datatype TargetGroup = TargetGroup(
    id: GoInt,
    target: GoInt,
    authgroup: GoInt,
    authtype: string,
    initialdigest: string,
    initiatorgroup: GoInt,
    portalgroup: GoInt)

  /** A LUN mapping of an extent into a target (target_to_extent.go);
      `lunid` is a pointer in Go and may be nil. */
  datatype TargetToExtent = TargetToExtent(id: GoInt, extent: GoInt, lunid: Option<GoInt>, target: GoInt)

  /** An iSCSI extent exposing a zvol's device path (extent.go). */
  datatype Extent = Extent(
    id: GoInt,
    availThreshold: GoInt,
    blocksize: GoInt,
    comment: string,
    filesize: string,
    insecureTpc: bool,
    legacy: bool,
    naa: string,
    name: string,
    path: string,
    disk: string,
    pblocksize: bool,
    ro: bool,
    rpm: string,
    serial: string,
    extentType: string,
    xen: bool)

  // Go zero values: what a struct holds when nothing was decoded into it.
  const ZeroDataset := Dataset(0, "", "", "", 0, 0, 0, 0, 0, "")
  const ZeroZvol := Zvol("", 0, "", "", "", 0, 0, "", false, false, "", ZeroDataset)
  const ZeroTarget := Target(0, "", "", "")
  const ZeroTargetGroup := TargetGroup(0, 0, 0, "", "", 0, 0)
  const ZeroTargetToExtent := TargetToExtent(0, 0, None, 0)
  const ZeroExtent := Extent(0, 0, 0, "", "", false, false, "", "", "", "", false, false, "", "", "", false)
}
