/** The provisioner's pure helpers (provisioner/provisioner.go): access-mode
    checks, string truncation, the names a volume's resources are given and
    the portal list of the volume descriptor. */
module ProvisionerNaming {
  import opened FreenasTypes
  import opened GoStrings

  /** A Kubernetes PersistentVolumeAccessMode. */
  type AccessMode = string

  const ReadWriteOnce: AccessMode := "ReadWriteOnce"
  const ReadOnlyMany: AccessMode := "ReadOnlyMany"
  const ReadWriteMany: AccessMode := "ReadWriteMany"

  /** The modes the provisioner can serve (getAccessModes). */
  const SupportedAccessModes: seq<AccessMode> := [ReadWriteOnce, ReadOnlyMany]

  /** Whether `mode` occurs in `modes`, scanning from the front. */
  function AccessModesContains(modes: seq<AccessMode>, mode: AccessMode): (r: bool)
    ensures r <==> mode in modes
    decreases |modes|
  {
    if |modes| == 0 then false
    else if modes[0] == mode then true
    else
      var rest := AccessModesContains(modes[1..], mode);
      assert modes == [modes[0]] + modes[1..];
      rest
  }

  /** Whether every requested mode is one of the indexed ones; an empty
      request is always contained. */
  function AccessModesContainedInAll(indexed: seq<AccessMode>, requested: seq<AccessMode>): (r: bool)
    ensures r <==> forall i :: 0 <= i < |requested| ==> requested[i] in indexed
    ensures requested == [] ==> r
    decreases |requested|
  {
    if |requested| == 0 then true
    else if !AccessModesContains(indexed, requested[0]) then false
    else
      var rest := AccessModesContainedInAll(indexed, requested[1..]);
      assert forall i :: 0 < i < |requested| ==> requested[i] == requested[1..][i - 1];
      rest
  }

  /** The provisioner accepts a request exactly when it asks only for
      ReadWriteOnce and ReadOnlyMany. */
  lemma SupportedModes(requested: seq<AccessMode>)
    ensures AccessModesContainedInAll(SupportedAccessModes, requested)
            <==> forall i :: 0 <= i < |requested| ==> requested[i] == ReadWriteOnce || requested[i] == ReadOnlyMany
    ensures !AccessModesContainedInAll(SupportedAccessModes, [ReadWriteMany])
  {
    assert ReadWriteMany != ReadWriteOnce && ReadWriteMany != ReadOnlyMany;
  }

  /** TruncateString keeps at most the first `n` characters. */
  function TruncateString(s: string, n: nat): (r: string)
    ensures |r| == if |s| <= n then |s| else n
    ensures r <= s
    ensures |s| <= n ==> r == s
  {
    if |s| > n then s[..n] else s
  }

  /** Go's conversion `int32(x)`: the value congruent to `x` modulo 2^32 in
      the signed 32-bit range. */
  function Int32(x: int): (r: int)
    ensures -0x8000_0000 <= r < 0x8000_0000
    ensures (x - r) % 0x1_0000_0000 == 0
    ensures -0x8000_0000 <= x < 0x8000_0000 ==> r == x
  {
    var m := x % 0x1_0000_0000;
    if m >= 0x8000_0000 then m - 0x1_0000_0000 else m
  }

  /** The names given to a volume's resources. */
  datatype Names = Names(zvol: string, iscsi: string, disk: string)

  /** The names derived from the parent dataset and the PV name: the zvol
      lives below the parent dataset (its pool prefix trimmed), the iSCSI
      name wraps the PV name in the configured prefix and suffix, and the
      extent's disk is the zvol's device path. */
  function DeriveNames(parent: Dataset, pvName: string, prefix: string, suffix: string): (r: Names)
    ensures '/' in r.zvol && |r.zvol| >= 1
    ensures |r.zvol| > |pvName| && r.zvol[|r.zvol| - |pvName| - 1..] == "/" + pvName
    ensures |r.iscsi| == |prefix| + |pvName| + |suffix|
    ensures |r.iscsi| >= |prefix| && r.iscsi[..|prefix|] == prefix && r.iscsi[|prefix|..] == pvName + suffix
    ensures r.disk == "zvol/" + parent.pool + "/" + r.zvol
    ensures HasPrefix(parent.name, parent.pool + "/") ==>
              r.disk == "zvol/" + parent.name + "/" + pvName
    ensures !HasPrefix(parent.name, parent.pool + "/") ==>
              r.disk == "zvol/" + parent.pool + "/" + parent.name + "/" + pvName
  {
    var zvol := TrimPrefix(parent.name, parent.pool + "/") + "/" + pvName;
    var iscsi := prefix + pvName + suffix;
    var disk := "zvol/" + parent.pool + "/" + zvol;
    assert zvol[|zvol| - |pvName| - 1] == '/';
    assert HasPrefix(parent.name, parent.pool + "/") ==> disk == "zvol/" + parent.name + "/" + pvName by {
      if HasPrefix(parent.name, parent.pool + "/") {
        assert parent.pool + "/" + TrimPrefix(parent.name, parent.pool + "/") == parent.name;
        assert disk == "zvol/" + (parent.pool + "/" + TrimPrefix(parent.name, parent.pool + "/")) + "/" + pvName;
      }
    }
    Names(zvol, iscsi, disk)
  }

  /** The portal list of the volume descriptor: none for an empty setting,
      else the comma-separated entries. */
  function Portals(setting: string): (r: seq<string>)
    ensures setting == "" <==> r == []
    ensures setting != "" ==> Join(r, ',') == setting
    ensures forall i :: 0 <= i < |r| ==> ',' !in r[i]
  {
    if |setting| > 0 then
      JoinSplit(setting, ',');
      Split(setting, ',')
    else []
  }
}
