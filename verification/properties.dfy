/** Properties of the routes that relate several calls, or that follow from a route's
    result for every input. */
module Properties {
  import opened Data
  import opened Routes

  // ---------------------------------------------------------------- /profile

  /** After a profile submission, `/profile/{id}` returns it for its own id and what it
      returned before for every other id; the likes and matches are untouched, and
      profiles stay stored under their own ids. */
  lemma ProfileUpsertThenGet(d: Document, p: Profile, id: int)
    ensures GetProfile(WithProfile(d, p), id) == if id == p.tgId then Ok(p) else GetProfile(d, id)
    ensures WithProfile(d, p).likes == d.likes && WithProfile(d, p).matches == d.matches
    ensures KeyedById(d.users) ==> KeyedById(WithProfile(d, p).users)
  {
  }

  // ---------------------------------------------------------------- /feed

  /** Two positions holding the same value make that value occur twice. */
  lemma {:induction false} RepeatCountsTwice(xs: seq<int>, i: nat, j: nat)
    requires i < j < |xs| && xs[i] == xs[j]
    ensures multiset(xs)[xs[i]] >= 2
  {
    var x := xs[i];
    assert xs == xs[..i] + [x] + xs[i + 1..j] + [x] + xs[j + 1..];
    assert multiset(xs) == multiset(xs[..i]) + multiset{x} + multiset(xs[i + 1..j])
                           + multiset{x} + multiset(xs[j + 1..]);
  }

  /** An enumeration of a set has the set's size, holds exactly its elements and
      repeats none. */
  lemma EnumerationFacts(xs: seq<int>, s: set<int>)
    requires IsEnumeration(xs, s)
    ensures |xs| == |s|
    ensures forall i :: 0 <= i < |xs| ==> xs[i] in s
    ensures forall x :: x in s ==> x in xs
    ensures forall i, j :: 0 <= i < j < |xs| ==> xs[i] != xs[j]
  {
    calc {
      |xs|;
      |multiset(xs)|;
      |multiset(s)|;
      |s|;
    }
    forall i | 0 <= i < |xs| ensures xs[i] in s {
      assert xs[i] in multiset(xs);
    }
    forall x | x in s ensures x in xs {
      assert x in multiset(s);
    }
    forall i, j | 0 <= i < j < |xs| ensures xs[i] != xs[j] {
      if xs[i] == xs[j] {
        RepeatCountsTwice(xs, i, j);
        assert false;
      }
    }
  }

  /** What `/feed` returns, for any outcome of the shuffle: at most `limit` profiles
      (exactly `min(limit, candidates)` for a non-negative limit), each of the gender
      opposite to the requester's, none of them the requester or anyone the requester has
      acted on with any action, and no profile twice. */
  lemma FeedIsFiltered(d: Document, me: int, limit: int, order: seq<int>, feed: seq<Profile>)
    requires me in d.users
    requires IsEnumeration(order, CandidateIds(d, me))
    requires forall i :: 0 <= i < |order| ==> order[i] in d.users
    requires feed == ProfilesOf(d.users, order[..PrefixLength(|order|, limit)])
    ensures 0 <= limit ==> |feed| <= limit
    ensures |feed| == PrefixLength(|CandidateIds(d, me)|, limit)
    ensures forall i :: 0 <= i < |feed| ==> feed[i].gender == Opposite(d.users[me].gender)
    ensures forall i :: 0 <= i < |feed| ==>
      order[i] != me && order[i] !in Seen(d.likes, me) && feed[i] == d.users[order[i]]
    ensures KeyedById(d.users) ==>
      forall i :: 0 <= i < |feed| ==> feed[i].tgId != me && feed[i].tgId !in Seen(d.likes, me)
    ensures KeyedById(d.users) ==> forall i, j :: 0 <= i < j < |feed| ==> feed[i] != feed[j]
  {
    EnumerationFacts(order, CandidateIds(d, me));
    var n := PrefixLength(|order|, limit);
    forall i | 0 <= i < |feed|
      ensures feed[i].gender == Opposite(d.users[me].gender)
      ensures order[i] != me && order[i] !in Seen(d.likes, me)
    {
      assert order[i] in CandidateIds(d, me);
    }
    if KeyedById(d.users) {
      forall i, j | 0 <= i < j < |feed| ensures feed[i] != feed[j] {
        assert feed[i].tgId == order[i] && feed[j].tgId == order[j];
      }
    }
  }

  /** The ids `me` has acted on grow by exactly the target of a new action by `me`. */
  lemma {:induction false} SeenAfterAppend(likes: seq<LikeAction>, a: LikeAction, me: int)
    ensures Seen(likes + [a], me) == Seen(likes, me) + (if a.fromId == me then {a.toId} else {})
  {
    var after := likes + [a];
    forall t | t in Seen(likes, me) ensures t in Seen(after, me) {
      var i :| 0 <= i < |likes| && likes[i].fromId == me && likes[i].toId == t;
      assert after[i] == likes[i];
    }
    if a.fromId == me {
      assert after[|likes|] == a;
    }
    forall t | t in Seen(after, me)
      ensures t in Seen(likes, me) || (a.fromId == me && t == a.toId)
    {
      var i :| 0 <= i < |after| && after[i].fromId == me && after[i].toId == t;
      if i < |likes| {
        assert likes[i] == after[i];
      }
    }
  }

  /** Once a registered requester has acted on someone, with any action including
      "nope", that user is no longer a feed candidate; and a new action, even from an
      actor with no profile, never adds a candidate for anyone. */
  lemma FeedExcludesActedOn(d: Document, a: LikeAction, me: int)
    requires me in d.users
    ensures a.fromId in d.users ==> a.toId !in CandidateIds(AfterLike(d, a), a.fromId)
    ensures CandidateIds(AfterLike(d, a), me) <= CandidateIds(d, me)
  {
    SeenAfterAppend(d.likes, a, a.fromId);
    SeenAfterAppend(d.likes, a, me);
  }

  /** Exclusion is permanent: once `me` has acted on `t`, `t` stays acted-on and out of
      `me`'s candidates after any later profile submission and after any later action. */
  lemma ExclusionSurvivesWrites(d: Document, me: int, t: int, p: Profile, a: LikeAction)
    requires me in d.users && t in Seen(d.likes, me)
    ensures t !in CandidateIds(d, me)
    ensures t in Seen(WithProfile(d, p).likes, me) && t !in CandidateIds(WithProfile(d, p), me)
    ensures t in Seen(AfterLike(d, a).likes, me) && t !in CandidateIds(AfterLike(d, a), me)
  {
    SeenAfterAppend(d.likes, a, me);
  }

  // ---------------------------------------------------------------- /like

  /** The reverse check sees the action itself only for a self-like: a positive action
      matches exactly when the target already has a positive entry towards the actor, or
      the actor likes themselves. "nope" (or any unknown action) never matches. */
  lemma MatchedIff(likes: seq<LikeAction>, a: LikeAction)
    ensures Matched(likes, a) <==>
      IsPositive(a.action) && (a.fromId == a.toId || HasReverse(likes, a.fromId, a.toId))
  {
    var after := likes + [a];
    if IsPositive(a.action) && HasReverse(likes, a.fromId, a.toId) {
      var i :| 0 <= i < |likes| && likes[i].fromId == a.toId && likes[i].toId == a.fromId
                && IsPositive(likes[i].action);
      assert after[i] == likes[i];
    }
    if IsPositive(a.action) && a.fromId == a.toId {
      assert after[|likes|] == a;
    }
    if Matched(likes, a) && a.fromId != a.toId {
      var i :| 0 <= i < |after| && after[i].fromId == a.toId && after[i].toId == a.fromId
                && IsPositive(after[i].action);
      assert i < |likes| && likes[i] == after[i];
    }
  }

  /** The ledger is append-only: a later action, even a "nope" from the same user,
      never takes back a positive entry, so an action that matched would match again. */
  lemma LaterActionsKeepMatch(likes: seq<LikeAction>, a: LikeAction, later: LikeAction)
    requires Matched(likes, a)
    ensures Matched(likes + [later], a)
  {
    MatchedIff(likes, a);
    MatchedIff(likes + [later], a);
    if a.fromId != a.toId {
      var i :| 0 <= i < |likes| && likes[i].fromId == a.toId && likes[i].toId == a.fromId
                && IsPositive(likes[i].action);
      assert (likes + [later])[i] == likes[i];
    }
  }

  /** Two users who like each other: the first action does not match (when nothing
      pointed back before), the second does and appends one match record oriented from
      the second actor. The ledger then holds both actions. */
  lemma ReciprocalLikesMatch(d: Document, x: int, y: int, first: string, second: string)
    requires IsPositive(first) && IsPositive(second)
    requires x != y && !HasReverse(d.likes, x, y)
    ensures !Matched(d.likes, LikeAction(x, y, first))
    ensures Matched(AfterLike(d, LikeAction(x, y, first)).likes, LikeAction(y, x, second))
    ensures AfterLike(AfterLike(d, LikeAction(x, y, first)), LikeAction(y, x, second))
      == Document(d.users, d.likes + [LikeAction(x, y, first), LikeAction(y, x, second)],
                  d.matches + [MatchRecord(y, x)])
  {
    var a := LikeAction(x, y, first);
    var b := LikeAction(y, x, second);
    MatchedIff(d.likes, a);
    var d1 := AfterLike(d, a);
    assert d1.likes[|d.likes|] == a;
    MatchedIff(d1.likes, b);
    assert d1.likes + [b] == d.likes + [a, b];
  }

  /** Matches are not deduplicated: repeating an action that matched matches again and
      appends a second, identical match record. */
  lemma RepeatedMatchDuplicates(d: Document, a: LikeAction)
    requires Matched(d.likes, a)
    ensures Matched(AfterLike(d, a).likes, a)
    ensures AfterLike(AfterLike(d, a), a).matches
      == d.matches + [MatchRecord(a.fromId, a.toId), MatchRecord(a.fromId, a.toId)]
  {
    LaterActionsKeepMatch(d.likes, a, a);
  }

  // ---------------------------------------------------------------- /stats

  lemma {:induction false} LikesReceivedAppend(likes: seq<LikeAction>, a: LikeAction, me: int)
    ensures LikesReceived(likes + [a], me)
      == LikesReceived(likes, me) + (if a.toId == me && a.action == "like" then 1 else 0)
  {
    if likes == [] {
      assert [a][1..] == [];
    } else {
      assert (likes + [a])[1..] == likes[1..] + [a];
      LikesReceivedAppend(likes[1..], a, me);
    }
  }

  lemma {:induction false} MatchCountAppend(ms: seq<MatchRecord>, m: MatchRecord, me: int)
    ensures MatchCount(ms + [m], me)
      == MatchCount(ms, me) + (if m.user1 == me || m.user2 == me then 1 else 0)
  {
    if ms == [] {
      assert [m][1..] == [];
    } else {
      assert (ms + [m])[1..] == ms[1..] + [m];
      MatchCountAppend(ms[1..], m, me);
    }
  }

  /** How `/stats` moves with one `/like`: the target's likes grow by one exactly for
      the action "like" ("super" and "nope" are not counted), each party of a new match
      gains one match (a self-match counts once), views stay three per like. */
  lemma StatsAfterLike(d: Document, a: LikeAction, me: int)
    ensures GetStats(AfterLike(d, a), me).likes
      == GetStats(d, me).likes + (if a.toId == me && a.action == "like" then 1 else 0)
    ensures GetStats(AfterLike(d, a), me).matches
      == GetStats(d, me).matches
         + (if Matched(d.likes, a) && (a.fromId == me || a.toId == me) then 1 else 0)
    ensures GetStats(AfterLike(d, a), me).views == 3 * GetStats(AfterLike(d, a), me).likes
  {
    LikesReceivedAppend(d.likes, a, me);
    if Matched(d.likes, a) {
      MatchCountAppend(d.matches, MatchRecord(a.fromId, a.toId), me);
    }
  }

  // ---------------------------------------------------------------- /matches

  /** The match record joins `me` and `other`, in either orientation. */
  predicate Joins(m: MatchRecord, me: int, other: int)
  {
    (m.user1 == me && m.user2 == other) || (m.user1 == other && m.user2 == me)
  }

  lemma OtherPartyJoins(m: MatchRecord, me: int, other: int)
    ensures OtherParty(m, me) == Some(other) <==> Joins(m, me, other)
  {
  }

  /** Every profile `/matches` lists is the stored profile, under a non-zero id, of a
      user that some match record joins with the caller. */
  lemma {:induction false} MatchedProfilesSound(users: map<int, Profile>, ms: seq<MatchRecord>, me: int)
    requires KeyedById(users)
    ensures forall p :: p in MatchedProfiles(users, ms, me) ==>
      p.tgId != 0 && p.tgId in users && users[p.tgId] == p
      && exists i :: 0 <= i < |ms| && Joins(ms[i], me, p.tgId)
    decreases |ms|
  {
    if ms != [] {
      var init := ms[..|ms| - 1];
      MatchedProfilesSound(users, init, me);
      forall p | p in MatchedProfiles(users, ms, me)
        ensures p.tgId != 0 && p.tgId in users && users[p.tgId] == p
        ensures exists i :: 0 <= i < |ms| && Joins(ms[i], me, p.tgId)
      {
        if p in MatchedProfiles(users, init, me) {
          var i :| 0 <= i < |init| && Joins(init[i], me, p.tgId);
          assert ms[i] == init[i];
        } else {
          assert p in Resolve(users, ms[|ms| - 1], me);
          var o := OtherParty(ms[|ms| - 1], me).value;
          assert p == users[o];
          OtherPartyJoins(ms[|ms| - 1], me, o);
        }
      }
    }
  }

  /** Every match record that joins the caller with a registered, non-zero id puts that
      user's profile in the listing. */
  lemma {:induction false} MatchedProfilesComplete(users: map<int, Profile>, ms: seq<MatchRecord>, me: int, i: nat)
    requires i < |ms|
    requires OtherParty(ms[i], me).Some?
    requires OtherParty(ms[i], me).value != 0 && OtherParty(ms[i], me).value in users
    ensures users[OtherParty(ms[i], me).value] in MatchedProfiles(users, ms, me)
    decreases |ms|
  {
    var init := ms[..|ms| - 1];
    if i < |ms| - 1 {
      assert init[i] == ms[i];
      MatchedProfilesComplete(users, init, me, i);
    }
  }

  /** The listing has at most one profile per match record involving the caller, so it
      is never longer than the match count of `/stats`. */
  lemma {:induction false} MatchedProfilesWithinCount(users: map<int, Profile>, ms: seq<MatchRecord>, me: int)
    ensures |MatchedProfiles(users, ms, me)| <= MatchCount(ms, me)
    decreases |ms|
  {
    if ms != [] {
      var init := ms[..|ms| - 1];
      assert ms == init + [ms[|ms| - 1]];
      MatchedProfilesWithinCount(users, init, me);
      MatchCountAppend(init, ms[|ms| - 1], me);
    }
  }

  /** Listing is symmetric: for two registered, non-zero ids, each appears in the
      other's `/matches` exactly when some match record joins them. */
  lemma MatchListingSymmetric(d: Document, x: int, y: int)
    requires KeyedById(d.users)
    requires x in d.users && y in d.users && x != 0 && y != 0
    ensures d.users[y] in MatchedProfiles(d.users, d.matches, x)
      <==> exists i :: 0 <= i < |d.matches| && Joins(d.matches[i], x, y)
    ensures d.users[y] in MatchedProfiles(d.users, d.matches, x)
      <==> d.users[x] in MatchedProfiles(d.users, d.matches, y)
  {
    MatchedProfilesSound(d.users, d.matches, x);
    MatchedProfilesSound(d.users, d.matches, y);
    forall i | 0 <= i < |d.matches| && Joins(d.matches[i], x, y)
      ensures d.users[y] in MatchedProfiles(d.users, d.matches, x)
      ensures d.users[x] in MatchedProfiles(d.users, d.matches, y)
    {
      OtherPartyJoins(d.matches[i], x, y);
      OtherPartyJoins(d.matches[i], y, x);
      MatchedProfilesComplete(d.users, d.matches, x, i);
      MatchedProfilesComplete(d.users, d.matches, y, i);
    }
  }

  // ---------------------------------------------------------------- a full exchange

  /** Two fresh users, a man and a woman, register; each sees only the other in the
      feed. He likes her: no match. She likes him back: one match record. Afterwards
      neither is in the other's feed, each lists the other in `/matches`, and his stats
      show one like received, one match and three views. */
  lemma MutualLikeScenario(m: Profile, w: Profile)
    requires m.gender == "male" && w.gender == "female"
    requires m.tgId != w.tgId && m.tgId != 0 && w.tgId != 0
    ensures var d0 := WithProfile(WithProfile(EmptyDocument, m), w);
            var d1 := AfterLike(d0, LikeAction(m.tgId, w.tgId, "like"));
            var d2 := AfterLike(d1, LikeAction(w.tgId, m.tgId, "like"));
            && CandidateIds(d0, m.tgId) == {w.tgId}
            && CandidateIds(d0, w.tgId) == {m.tgId}
            && !Matched(d0.likes, LikeAction(m.tgId, w.tgId, "like"))
            && Matched(d1.likes, LikeAction(w.tgId, m.tgId, "like"))
            && d2.matches == [MatchRecord(w.tgId, m.tgId)]
            && CandidateIds(d2, m.tgId) == {}
            && CandidateIds(d2, w.tgId) == {}
            && MatchedProfiles(d2.users, d2.matches, m.tgId) == [w]
            && MatchedProfiles(d2.users, d2.matches, w.tgId) == [m]
            && GetStats(d2, m.tgId) == Stats(1, 1, 3)
  {
    var x, y := m.tgId, w.tgId;
    var d0 := WithProfile(WithProfile(EmptyDocument, m), w);
    var a := LikeAction(x, y, "like");
    var b := LikeAction(y, x, "like");
    assert d0.users.Keys == {x, y};
    assert Seen(d0.likes, x) == {} && Seen(d0.likes, y) == {};
    assert CandidateIds(d0, x) == {y};
    assert CandidateIds(d0, y) == {x};
    ReciprocalLikesMatch(d0, x, y, "like", "like");
    var d1 := AfterLike(d0, a);
    var d2 := AfterLike(d1, b);
    assert d2.likes == [a, b];
    SeenAfterAppend([a], b, x);
    SeenAfterAppend([a], b, y);
    SeenAfterAppend([], a, x);
    SeenAfterAppend([], a, y);
    assert [a] + [b] == d2.likes && [] + [a] == [a];
    assert CandidateIds(d2, x) == {};
    assert CandidateIds(d2, y) == {};
    assert d2.matches[..0] == [];
    assert LikesReceived(d2.likes, x) == 1;
  }
}
