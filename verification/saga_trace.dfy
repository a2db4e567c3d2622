/** Facts about a trace of requests that the provision saga's properties are
    stated in: which requests delete, which post an extent, and how a trace
    grows. */
module SagaTrace {
  import opened Appliance

  /** The order in which the saga creates resources. */
  const CreationOrder: seq<Kind> := [ZvolKind, TargetKind, GroupKind, ExtentKind, MappingKind]

  function Reverse<T>(s: seq<T>): (r: seq<T>)
    ensures |r| == |s|
    ensures forall i :: 0 <= i < |s| ==> r[i] == s[|s| - 1 - i]
    decreases |s|
  {
    if |s| == 0 then [] else Reverse(s[1..]) + [s[0]]
  }

  /** Where `k` stands in the creation order; past its end for the kinds
      the saga only reads. */
  function Position(k: Kind): (r: nat)
    ensures r <= |CreationOrder|
    ensures r < |CreationOrder| ==> CreationOrder[r] == k
    ensures r == |CreationOrder| ==> k !in CreationOrder
  {
    match k
    case ZvolKind => 0
    case TargetKind => 1
    case GroupKind => 2
    case ExtentKind => 3
    case MappingKind => 4
    case _ => 5
  }

  /** What a failure creating a `k` must undo: every resource created before
      it, newest first. A failure before the first create undoes nothing. */
  function Undo(k: Kind): seq<Kind>
  {
    if Position(k) < |CreationOrder| then Reverse(CreationOrder[..Position(k)]) else []
  }

  /** The rollback lists, spelled out. */
  lemma UndoValues()
    ensures Undo(ZvolKind) == []
    ensures Undo(TargetKind) == [ZvolKind]
    ensures Undo(GroupKind) == [TargetKind, ZvolKind]
    ensures Undo(ExtentKind) == [GroupKind, TargetKind, ZvolKind]
    ensures Undo(MappingKind) == [ExtentKind, GroupKind, TargetKind, ZvolKind]
    ensures Undo(GlobalConfigKind) == [] && Undo(DatasetKind) == []
  {
  }

  predicate IsExtentPost(op: Op)
  {
    op.verb == POST && op.at == ExtentCollection
  }

  /** `t2` starts with `t1`. */
  predicate Extends(t1: seq<Op>, t2: seq<Op>)
  {
    |t1| <= |t2| && forall i :: 0 <= i < |t1| ==> t2[i] == t1[i]
  }

  /** `t2` extends `t1` by requests none of which deletes. */
  predicate NoDeleteAfter(t1: seq<Op>, t2: seq<Op>)
  {
    Extends(t1, t2) && forall i :: |t1| <= i < |t2| ==> t2[i].verb != DELETE
  }

  /** `t2` extends `t1` by requests none of which posts an extent. */
  predicate NoExtentPostAfter(t1: seq<Op>, t2: seq<Op>)
  {
    Extends(t1, t2) && forall i :: |t1| <= i < |t2| ==> !IsExtentPost(t2[i])
  }

  /** `t2` extends `t1` by requests that do not delete, followed by exactly
      one deletion per kind of `undo`, in that order: the rollback of
      `undo` and nothing else. */
  predicate UnwoundAfter(t1: seq<Op>, t2: seq<Op>, undo: seq<Kind>)
  {
    && Extends(t1, t2)
    && |t1| + |undo| <= |t2|
    && (forall i :: |t1| <= i < |t2| - |undo| ==> t2[i].verb != DELETE)
    && (forall i :: |t2| - |undo| <= i < |t2| ==> t2[i].verb == DELETE)
    && (forall i :: |t2| - |undo| <= i < |t2| ==> KindOf(t2[i].at) == undo[i - (|t2| - |undo|)])
  }

  /** The number of extent posts in a trace. */
  function ExtentPosts(t: seq<Op>): nat
    decreases |t|
  {
    if |t| == 0 then 0 else ExtentPosts(t[..|t| - 1]) + (if IsExtentPost(t[|t| - 1]) then 1 else 0)
  }

  /** Requests that post no extent leave the count alone. */
  lemma {:induction false} ExtentPostsSteady(t1: seq<Op>, t2: seq<Op>)
    requires NoExtentPostAfter(t1, t2)
    ensures ExtentPosts(t2) == ExtentPosts(t1)
    decreases |t2|
  {
    if |t2| > |t1| {
      ExtentPostsSteady(t1, t2[..|t2| - 1]);
    } else {
      assert t2 == t1;
    }
  }

  /** One more request adds at most one extent post. */
  lemma ExtentPostsAppend(t: seq<Op>, op: Op)
    ensures ExtentPosts(t + [op]) == ExtentPosts(t) + (if IsExtentPost(op) then 1 else 0)
  {
    assert (t + [op])[..|t|] == t;
  }

  lemma ExtendsTrans(t1: seq<Op>, t2: seq<Op>, t3: seq<Op>)
    requires Extends(t1, t2) && Extends(t2, t3)
    ensures Extends(t1, t3)
  {
  }

  /** Quiet requests, then a rollback, is a rollback. */
  lemma UnwoundAfterQuiet(t1: seq<Op>, t2: seq<Op>, t3: seq<Op>, undo: seq<Kind>)
    requires NoDeleteAfter(t1, t2) && UnwoundAfter(t2, t3, undo)
    ensures UnwoundAfter(t1, t3, undo)
  {
  }

  /** A trace with no deletion. */
  predicate NoDelete(t: seq<Op>)
  {
    forall i :: 0 <= i < |t| ==> t[i].verb != DELETE
  }

  /** Every extent the trace posts names a disk of at most `max` characters. */
  predicate DisksFit(t: seq<Op>, max: nat)
  {
    forall i :: 0 <= i < |t| && IsExtentPost(t[i]) ==> t[i].sent.ExtentBody? && |t[i].sent.extent.disk| <= max
  }

  /** `t2` extends `t1` by at most `budget` extent posts, each naming `disk`. */
  predicate PostsOf(t1: seq<Op>, t2: seq<Op>, disk: string, budget: nat)
  {
    && Extends(t1, t2)
    && ExtentPosts(t2) <= ExtentPosts(t1) + budget
    && forall i :: |t1| <= i < |t2| && IsExtentPost(t2[i]) ==> t2[i].sent.ExtentBody? && t2[i].sent.extent.disk == disk
  }

  lemma PostsOfQuiet(t1: seq<Op>, t2: seq<Op>, disk: string)
    requires NoExtentPostAfter(t1, t2)
    ensures PostsOf(t1, t2, disk, 0)
  {
    ExtentPostsSteady(t1, t2);
  }

  lemma PostsOfTrans(t1: seq<Op>, t2: seq<Op>, t3: seq<Op>, disk: string, b1: nat, b2: nat)
    requires PostsOf(t1, t2, disk, b1) && PostsOf(t2, t3, disk, b2)
    ensures PostsOf(t1, t3, disk, b1 + b2)
  {
  }

  /** A trace with no deletion, extended without one, has none. */
  lemma NoDeleteExtended(t1: seq<Op>, t2: seq<Op>)
    requires NoDelete(t1) && NoDeleteAfter(t1, t2)
    ensures NoDelete(t2)
  {
  }

  /** A trace that posts no extent, extended by posts naming a disk that
      fits, has only disks that fit. */
  lemma PostsOfFit(t1: seq<Op>, t2: seq<Op>, disk: string, budget: nat, max: nat)
    requires forall i :: 0 <= i < |t1| ==> !IsExtentPost(t1[i])
    requires PostsOf(t1, t2, disk, budget) && |disk| <= max
    ensures DisksFit(t2, max)
  {
  }
}
