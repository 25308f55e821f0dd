/** KYC submissions and the `last_kyc` cache on the profile. */
module Kyc {
  import opened Common

  datatype SubmissionStatus = Draft | Pending | Approved | Rejected
  datatype Submission = Submission(profile: ProfileId, status: SubmissionStatus, createdAt: int)

  datatype KycStatus = KycPending | KycUnverified | KycVerified
  datatype Profile = Profile(lastKyc: Option<SubmissionId>, kycStatus: KycStatus)

  type ProfileId = nat
  type SubmissionId = nat
  type Submissions = map<SubmissionId, Submission>
  type Profiles = map<ProfileId, Profile>

  predicate IsApproved(subs: Submissions, p: ProfileId, id: SubmissionId) {
    id in subs && subs[id].profile == p && subs[id].status == Approved
  }

  /** The latest-created approved submission of the profile, or none. */
  ghost predicate IsLatestApproved(subs: Submissions, p: ProfileId, last: Option<SubmissionId>) {
    match last
    case None => forall id :: !IsApproved(subs, p, id)
    case Some(best) =>
      IsApproved(subs, p, best) && forall id :: IsApproved(subs, p, id) ==> subs[id].createdAt <= subs[best].createdAt
  }

  /** With distinct creation times there is only one latest approved submission. */
  ghost predicate DistinctTimes(subs: Submissions) {
    forall i, j :: i in subs && j in subs && subs[i].createdAt == subs[j].createdAt ==> i == j
  }

  /** The cached field and the status of the profile say what the submissions say. */
  ghost predicate CacheAgrees(subs: Submissions, p: ProfileId, profile: Profile) {
    && IsLatestApproved(subs, p, profile.lastKyc)
    && (profile.kycStatus == KycVerified <==> exists id :: IsApproved(subs, p, id))
  }

  /** After a decision the profile is verified with its latest approved submission, or unverified without. */
  ghost predicate IsRecomputed(subs: Submissions, p: ProfileId, profile: Profile) {
    && IsLatestApproved(subs, p, profile.lastKyc)
    && profile.kycStatus == if exists id :: IsApproved(subs, p, id) then KycVerified else KycUnverified
  }

  /** Creation times are distinct, submissions belong to known profiles, and every cache agrees. */
  ghost predicate Agrees(subs: Submissions, profiles: Profiles) {
    && DistinctTimes(subs)
    && (forall id :: id in subs ==> subs[id].profile in profiles)
    && forall p :: p in profiles ==> CacheAgrees(subs, p, profiles[p])
  }

  class Registry {
    var submissions: Submissions
    var profiles: Profiles

    ghost predicate Valid()
      reads this
    {
      Agrees(submissions, profiles)
    }

    constructor (people: set<ProfileId>)
      ensures Valid() && submissions == map[] && profiles.Keys == people
    {
      submissions := map[];
      profiles := map p | p in people :: Profile(None, KycUnverified);
    }

    /** The approved submissions of the profile ordered by descending creation time, the first of them. */
    method FirstByCreation(p: ProfileId) returns (first: Option<SubmissionId>)
      ensures IsLatestApproved(submissions, p, first)
    {
      first := None;
      var rest := submissions;
      while rest != map[]
        invariant rest.Keys <= submissions.Keys && forall id :: id in rest ==> rest[id] == submissions[id]
        invariant first.Some? ==> IsApproved(submissions, p, first.value)
        invariant forall id :: IsApproved(submissions, p, id) && id !in rest ==>
          first.Some? && submissions[id].createdAt <= submissions[first.value].createdAt
        decreases |rest|
      {
        var id :| id in rest;
        var s := rest[id];
        if s.profile == p && s.status == Approved
           && (first.None? || submissions[first.value].createdAt < s.createdAt) {
          first := Some(id);
        }
        rest := rest - {id};
      }
    }

    /** A new submission waits for a decision; only an unverified profile may submit. */
    method Submit(p: ProfileId, id: SubmissionId, now: int) returns (accepted: bool)
      requires Valid() && p in profiles && id !in submissions
      requires forall i :: i in submissions ==> submissions[i].createdAt != now
      modifies this
      ensures Valid()
      ensures accepted <==> old(profiles)[p].kycStatus == KycUnverified
      ensures submissions == if accepted then old(submissions)[id := Submission(p, Pending, now)] else old(submissions)
      ensures profiles ==
        if accepted then old(profiles)[p := old(profiles)[p].(kycStatus := KycPending)] else old(profiles)
    {
      if profiles[p].kycStatus != KycUnverified {
        return false;
      }
      SubmitKeepsCacheIff(submissions, profiles[p], p, id, now);
      ghost var before := submissions;
      submissions := submissions[id := Submission(p, Pending, now)];
      forall q | q in profiles && q != p ensures CacheAgrees(submissions, q, profiles[q]) {
        SameApproved(before, submissions, q, profiles[q]);
      }
      profiles := profiles[p := profiles[p].(kycStatus := KycPending)];
      accepted := true;
    }

    method Approve(id: SubmissionId)
      requires Valid() && id in submissions
      modifies this
      ensures Valid()
      ensures submissions == old(submissions)[id := old(submissions)[id].(status := Approved)]
      ensures profiles.Keys == old(profiles).Keys
      ensures forall q :: q in profiles && q != submissions[id].profile ==> profiles[q] == old(profiles)[q]
      ensures IsRecomputed(submissions, submissions[id].profile, profiles[submissions[id].profile])
    {
      ChangeTransition(id, Approved);
    }

    method Reject(id: SubmissionId)
      requires Valid() && id in submissions
      modifies this
      ensures Valid()
      ensures submissions == old(submissions)[id := old(submissions)[id].(status := Rejected)]
      ensures profiles.Keys == old(profiles).Keys
      ensures forall q :: q in profiles && q != submissions[id].profile ==> profiles[q] == old(profiles)[q]
      ensures IsRecomputed(submissions, submissions[id].profile, profiles[submissions[id].profile])
    {
      ChangeTransition(id, Rejected);
    }

    /** Saves the status, then recomputes the cache of the profile. */
    method ChangeTransition(id: SubmissionId, status: SubmissionStatus)
      requires Valid() && id in submissions
      modifies this
      ensures Valid()
      ensures submissions == old(submissions)[id := old(submissions)[id].(status := status)]
      ensures profiles.Keys == old(profiles).Keys
      ensures forall q :: q in profiles && q != submissions[id].profile ==> profiles[q] == old(profiles)[q]
      ensures IsRecomputed(submissions, submissions[id].profile, profiles[submissions[id].profile])
    {
      assert submissions[id].profile in profiles;
      hide CacheAgrees, IsLatestApproved, IsRecomputed, DistinctTimes, Agrees;
      ghost var subs, people := submissions, profiles;
      var p := submissions[id].profile;
      submissions := submissions[id := submissions[id].(status := status)];
      var last := FirstByCreation(p);
      TransitionAgrees(subs, people, id, status, last);
      var verified := last.Some? && submissions[last.value].status == Approved;
      profiles := profiles[p := Profile(last, if verified then KycVerified else KycUnverified)];
    }

    /** A copy of a submission, as a draft created now. */
    method Clone(id: SubmissionId, copy: SubmissionId, now: int)
      requires Valid() && id in submissions && copy !in submissions
      requires forall i :: i in submissions ==> submissions[i].createdAt != now
      modifies this
      ensures Valid() && profiles == old(profiles)
      ensures submissions == old(submissions)[copy := Submission(old(submissions)[id].profile, Draft, now)]
    {
      ghost var before := submissions;
      submissions := submissions[copy := Submission(submissions[id].profile, Draft, now)];
      forall q | q in profiles ensures CacheAgrees(submissions, q, profiles[q]) {
        SameApproved(before, submissions, q, profiles[q]);
      }
    }

    /** Only drafts may be deleted. */
    method DeleteDraft(id: SubmissionId) returns (deleted: bool)
      requires Valid() && id in submissions
      modifies this
      ensures Valid() && profiles == old(profiles)
      ensures deleted <==> old(submissions)[id].status == Draft
      ensures submissions == if deleted then old(submissions) - {id} else old(submissions)
    {
      if submissions[id].status != Draft {
        return false;
      }
      ghost var before := submissions;
      submissions := submissions - {id};
      forall q | q in profiles ensures CacheAgrees(submissions, q, profiles[q]) {
        SameApproved(before, submissions, q, profiles[q]);
      }
      deleted := true;
    }
  }

  /** The cache of a profile depends on its approved submissions only. */
  lemma SameApproved(before: Submissions, after: Submissions, p: ProfileId, profile: Profile)
    requires forall id :: IsApproved(before, p, id) <==> IsApproved(after, p, id)
    requires forall id :: id in before && id in after ==> before[id].createdAt == after[id].createdAt
    ensures CacheAgrees(before, p, profile) <==> CacheAgrees(after, p, profile)
  {
  }

  lemma OthersKeepCache(before: Submissions, id: SubmissionId, status: SubmissionStatus, q: ProfileId, profile: Profile)
    requires id in before && before[id].profile != q && CacheAgrees(before, q, profile)
    ensures CacheAgrees(before[id := before[id].(status := status)], q, profile)
  {
    SameApproved(before, before[id := before[id].(status := status)], q, profile);
  }

  /** A profile written from the latest approved submission agrees with the submissions. */
  lemma RecomputedAgrees(subs: Submissions, p: ProfileId, last: Option<SubmissionId>)
    requires IsLatestApproved(subs, p, last)
    ensures last.Some? ==> last.value in subs && subs[last.value].status == Approved
    ensures CacheAgrees(subs, p, Profile(last, if last.Some? then KycVerified else KycUnverified))
    ensures IsRecomputed(subs, p, Profile(last, if last.Some? then KycVerified else KycUnverified))
  {
  }

  lemma TransitionAgrees(subs: Submissions, profiles: Profiles, id: SubmissionId, status: SubmissionStatus,
                         last: Option<SubmissionId>)
    requires Agrees(subs, profiles) && id in subs
    requires IsLatestApproved(subs[id := subs[id].(status := status)], subs[id].profile, last)
    ensures Agrees(subs[id := subs[id].(status := status)],
                   profiles[subs[id].profile := Profile(last, if last.Some? then KycVerified else KycUnverified)])
    ensures last.Some? ==>
      last.value in subs && subs[id := subs[id].(status := status)][last.value].status == Approved
    ensures IsRecomputed(subs[id := subs[id].(status := status)], subs[id].profile,
                         Profile(last, if last.Some? then KycVerified else KycUnverified))
  {
    var after, p := subs[id := subs[id].(status := status)], subs[id].profile;
    RecomputedAgrees(after, p, last);
    forall q | q in profiles && q != p ensures CacheAgrees(after, q, profiles[q]) {
      OthersKeepCache(subs, id, status, q, profiles[q]);
    }
    hide CacheAgrees;
  }

  /** The cache has one right value. */
  lemma CacheIsDetermined(subs: Submissions, p: ProfileId, x: Profile, y: Profile)
    requires DistinctTimes(subs) && CacheAgrees(subs, p, x) && CacheAgrees(subs, p, y)
    ensures x.lastKyc == y.lastKyc
    ensures x.kycStatus == KycVerified <==> y.kycStatus == KycVerified
  {
    if x.lastKyc.Some? && y.lastKyc.Some? {
      var i, j := x.lastKyc.value, y.lastKyc.value;
      assert IsApproved(subs, p, i) && IsApproved(subs, p, j);
    }
  }

  /** Setting the profile to pending on submission keeps the cache right exactly when the profile was not
      verified, which is what the guard of the views ensures. */
  lemma SubmitKeepsCacheIff(subs: Submissions, profile: Profile, p: ProfileId, id: SubmissionId, now: int)
    requires CacheAgrees(subs, p, profile) && id !in subs
    ensures CacheAgrees(subs[id := Submission(p, Pending, now)], p, profile.(kycStatus := KycPending))
        <==> profile.kycStatus != KycVerified
  {
    var after := subs[id := Submission(p, Pending, now)];
    forall i ensures IsApproved(after, p, i) <==> IsApproved(subs, p, i) {
    }
    SameApproved(subs, after, p, profile);
  }

  datatype Call =
    | SubmitCall(profile: ProfileId, id: SubmissionId, now: int)
    | ApproveCall(id: SubmissionId)
    | RejectCall(id: SubmissionId)
    | CloneCall(id: SubmissionId, copy: SubmissionId, now: int)
    | DeleteCall(id: SubmissionId)

  /** Any sequence of calls, each made on existing rows, new rows getting fresh identifiers and new creation
      times. After all of them every cache agrees with its definition. */
  method RunCalls(registry: Registry, calls: seq<Call>)
    requires registry.Valid()
    modifies registry
    ensures registry.Valid()
    ensures forall p :: p in registry.profiles ==> CacheAgrees(registry.submissions, p, registry.profiles[p])
  {
    for i := 0 to |calls|
      invariant registry.Valid()
    {
      var newTime := calls[i].SubmitCall? || calls[i].CloneCall? ==>
        forall j :: j in registry.submissions ==> registry.submissions[j].createdAt != calls[i].now;
      match calls[i] {
        case SubmitCall(p, id, now) =>
          if newTime && p in registry.profiles && id !in registry.submissions {
            var _ := registry.Submit(p, id, now);
          }
        case ApproveCall(id) => if id in registry.submissions { registry.Approve(id); }
        case RejectCall(id) => if id in registry.submissions { registry.Reject(id); }
        case CloneCall(id, copy, now) =>
          if newTime && id in registry.submissions && copy !in registry.submissions {
            registry.Clone(id, copy, now);
          }
        case DeleteCall(id) => if id in registry.submissions { var _ := registry.DeleteDraft(id); }
      }
    }
  }
}
