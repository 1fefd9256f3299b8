/**
 The profile fields the matchers read, and the tolerant decoding of the
 list-valued fields that are stored as JSON text.
 */
module Profiles {

  datatype Option<+T> = None | Some(value: T)

  /**
   A list-valued field as it comes out of storage: `Some(items)` when its
   JSON text decoded (an absent or empty field reads as `Some([])`),
   `None` when decoding failed.
   */
  type StoredList = Option<seq<string>>

  /** Mentee fields the live matcher reads; an absent text field is the empty string. */
  datatype MenteeProfile = MenteeProfile(
    infoConcentration: string,
    bio: string,
    fieldInterests: string,
    advisingNeeds: StoredList,
    careersInterestedIn: StoredList)

  /** Mentor fields the live matcher and the ranker read. */
  datatype MentorProfile = MentorProfile(
    infoConcentration: string,
    bio: string,
    experiences: string,
    careerPursuing: string,
    advisingTopics: StoredList,
    availabilityStatus: string)

  /** Only the exact status string "available" makes a mentor eligible, in both matchers. */
  predicate AvailableStatus(status: string) {
    status == "available"
  }

  predicate IsAvailable(m: MentorProfile) {
    AvailableStatus(m.availabilityStatus)
  }

  /** Decodes the fields one after the other and gives up at the first failure. */
  function DecodeInOrder(stored: seq<StoredList>): (r: Option<seq<seq<string>>>)
    ensures r.Some? <==> forall i :: 0 <= i < |stored| ==> stored[i].Some?
    ensures r.Some? ==> |r.value| == |stored|
    ensures r.Some? ==> forall i :: 0 <= i < |stored| ==> r.value[i] == stored[i].value
  {
    if stored == [] then Some([])
    else if stored[0].None? then None
    else
      match DecodeInOrder(stored[1..])
      case None => None
      case Some(rest) => Some([stored[0].value] + rest)
  }

  /**
   The decoding of a group of fields inside one error handler: each field
   is its decoded list, unless any field of the group fails, in which case
   every field of the group is the empty list.
   */
  function DecodeGroup(stored: seq<StoredList>): (lists: seq<seq<string>>)
    ensures |lists| == |stored|
    ensures (exists i :: 0 <= i < |stored| && stored[i].None?) ==> forall i :: 0 <= i < |lists| ==> lists[i] == []
    ensures (forall i :: 0 <= i < |stored| ==> stored[i].Some?) ==> forall i :: 0 <= i < |lists| ==> lists[i] == stored[i].value
  {
    match DecodeInOrder(stored)
    case Some(lists) => lists
    case None => seq(|stored|, _ => [])
  }
}
