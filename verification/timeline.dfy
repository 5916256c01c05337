/**
  The level timeline (TimeLineScreen's fetchTimelineData): thirty nodes, one
  per level, each carrying the first catalogue accessory unlocked at that
  level and whether the user's level has reached it.
*/
module Timeline {
  import opened Options
  import opened Entities

  const MaxLevel: int := 30

  datatype TimelineNode = TimelineNode(level: int, hasReward: bool, accessory: Option<Accessory>, isUnlocked: bool)

  /** `profile?.level || 1`: a missing profile or a level of 0 reads as level 1. */
  function UserLevel(profileLevel: Option<int>): (l: int)
    ensures l != 0
    ensures profileLevel.Some? && profileLevel.value != 0 ==> l == profileLevel.value
    ensures profileLevel.None? || profileLevel.value == 0 ==> l == 1
  {
    match profileLevel
    case Some(v) => if v != 0 then v else 1
    case None => 1
  }

  /** Entry `i` is the first accessory of the list unlocked at `level`. */
  predicate FirstAt(accessories: seq<Accessory>, level: int, i: int) {
    && 0 <= i < |accessories|
    && accessories[i].unlockLevel == level
    && forall j :: 0 <= j < i ==> accessories[j].unlockLevel != level
  }

  /** `accessories?.find(a => a.unlock_level === level)`: the first accessory unlocked at `level`. */
  function FindByUnlockLevel(accessories: seq<Accessory>, level: int): (r: Option<Accessory>)
    ensures r.None? <==> forall i :: 0 <= i < |accessories| ==> accessories[i].unlockLevel != level
    ensures r.Some? ==> exists i :: FirstAt(accessories, level, i) && accessories[i] == r.value
    ensures r.Some? ==> r.value.unlockLevel == level
    decreases |accessories|
  {
    if |accessories| == 0 then None
    else if accessories[0].unlockLevel == level then Some(accessories[0])
    else
      var r := FindByUnlockLevel(accessories[1..], level);
      assert forall i :: 1 <= i < |accessories| ==> accessories[i] == accessories[1..][i - 1];
      r
  }

  /** The node the loop builds for `level`. */
  function NodeFor(accessories: Option<seq<Accessory>>, level: int, userLevel: int): TimelineNode {
    var found := if accessories.Some? then FindByUnlockLevel(accessories.value, level) else None;
    TimelineNode(level, found.Some?, found, level <= userLevel)
  }

  /**
    The timeline for a profile level and a catalogue query result (`None`
    when the query returned no data).
  */
  method BuildTimeline(profileLevel: Option<int>, accessories: Option<seq<Accessory>>) returns (nodes: seq<TimelineNode>)
    ensures |nodes| == MaxLevel
    ensures forall i :: 0 <= i < |nodes| ==> nodes[i] == NodeFor(accessories, i + 1, UserLevel(profileLevel))
    ensures forall i :: 0 <= i < |nodes| ==> nodes[i].level == i + 1
    ensures forall i :: 0 <= i < |nodes| ==> (nodes[i].isUnlocked <==> i + 1 <= UserLevel(profileLevel))
  {
    var userLevel := UserLevel(profileLevel);
    nodes := [];
    var level := 1;
    while level <= MaxLevel
      invariant 1 <= level <= MaxLevel + 1
      invariant |nodes| == level - 1
      invariant forall i :: 0 <= i < |nodes| ==> nodes[i] == NodeFor(accessories, i + 1, userLevel)
    {
      nodes := nodes + [NodeFor(accessories, level, userLevel)];
      level := level + 1;
    }
  }

  /** A node carries a reward exactly when some accessory unlocks at its level, and then it is the first such. */
  lemma NodeReward(accessories: seq<Accessory>, level: int, userLevel: int)
    ensures NodeFor(Some(accessories), level, userLevel).hasReward
        <==> exists i :: 0 <= i < |accessories| && accessories[i].unlockLevel == level
    ensures NodeFor(Some(accessories), level, userLevel).accessory == FindByUnlockLevel(accessories, level)
  {
  }

  /** Unlocked nodes form a prefix of the timeline. */
  lemma UnlockedPrefix(nodes: seq<TimelineNode>, profileLevel: Option<int>, accessories: Option<seq<Accessory>>, j: int, k: int)
    requires |nodes| == MaxLevel
    requires forall i :: 0 <= i < |nodes| ==> nodes[i] == NodeFor(accessories, i + 1, UserLevel(profileLevel))
    requires 0 <= j < k < |nodes| && nodes[k].isUnlocked
    ensures nodes[j].isUnlocked
  {
  }

  /** An accessory whose unlock level lies outside 1..30 is attached to no node. */
  lemma OutOfRangeNeverShown(nodes: seq<TimelineNode>, profileLevel: Option<int>, accessories: Option<seq<Accessory>>, a: Accessory)
    requires |nodes| == MaxLevel
    requires forall i :: 0 <= i < |nodes| ==> nodes[i] == NodeFor(accessories, i + 1, UserLevel(profileLevel))
    requires a.unlockLevel < 1 || a.unlockLevel > MaxLevel
    ensures forall i :: 0 <= i < |nodes| ==> nodes[i].accessory != Some(a)
  {
  }
}
