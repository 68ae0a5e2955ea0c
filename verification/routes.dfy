/** The routes of the matching service, as operations on one loaded document.
    Reads (`/profile/{id}`, `/feed`, `/matches`, `/stats`) take the document as a value;
    the two writes (`/profile`, `/like`) are given here as document-to-document functions,
    which the in-place methods of `Storage.Store` are proved to follow. */
module Routes {
  import opened Data

  /** The two actions that count as positive interest when matching. */
  predicate IsPositive(action: string)
  {
    action == "like" || action == "super"
  }

  // ---------------------------------------------------------------- /profile

  /** The document after a profile submission: the profile replaces whatever was
      stored under its id; nothing else changes. */
  function WithProfile(d: Document, p: Profile): Document
  {
    d.(users := d.users[p.tgId := p])
  }

  /** `GET /profile/{id}`: the stored profile, or 404 "User not found". */
  function GetProfile(d: Document, tgId: int): (r: Result<Profile>)
    ensures r.Ok? <==> tgId in d.users
    ensures r.Ok? ==> r.value == d.users[tgId]
    ensures r.Err? ==> r.failure == UserNotFound
  {
    if tgId in d.users then Ok(d.users[tgId]) else Err(UserNotFound)
  }

  // ---------------------------------------------------------------- /feed

  /** The gender a requester is shown: "female" for "male", "male" for anything else. */
  function Opposite(gender: string): string
  {
    if gender == "male" then "female" else "male"
  }

  /** Every id that `me` has acted on, with any action. */
  function Seen(likes: seq<LikeAction>, me: int): set<int>
  {
    set i | 0 <= i < |likes| && likes[i].fromId == me :: likes[i].toId
  }

  /** `uid` is shown to `me`: it has a profile of the opposite gender, is not `me`,
      and `me` has not acted on it. */
  predicate Eligible(d: Document, me: int, uid: int)
    requires me in d.users
  {
    uid in d.users
    && d.users[uid].gender == Opposite(d.users[me].gender)
    && uid != me
    && uid !in Seen(d.likes, me)
  }

  ghost function CandidateIds(d: Document, me: int): set<int>
    requires me in d.users
  {
    set uid | uid in d.users && Eligible(d, me, uid)
  }

  /** `xs` lists every element of `s` exactly once, in some order. */
  ghost predicate IsEnumeration(xs: seq<int>, s: set<int>)
  {
    multiset(xs) == multiset(s)
  }

  /** The length of `xs[:limit]` for a list `xs` of length `n`, with the slice rules of
      Python: a negative `limit` counts from the end. */
  function PrefixLength(n: nat, limit: int): (e: nat)
    ensures e <= n
    ensures 0 <= limit ==> e <= limit
    ensures 0 <= limit <= n ==> e == limit
    ensures 0 <= n <= limit ==> e == n
    ensures limit < 0 && -limit <= n ==> e == n + limit
    ensures limit < 0 && n < -limit ==> e == 0
  {
    if 0 <= limit then (if limit < n then limit else n)
    else if 0 < n + limit then n + limit
    else 0
  }

  function ProfilesOf(users: map<int, Profile>, ids: seq<int>): (r: seq<Profile>)
    requires forall i :: 0 <= i < |ids| ==> ids[i] in users
    ensures |r| == |ids|
    ensures forall i :: 0 <= i < |ids| ==> r[i] == users[ids[i]]
  {
    seq(|ids|, i requires 0 <= i < |ids| => users[ids[i]])
  }

  /** The eligible ids among the keys already visited (all keys but `rest`). */
  ghost function EligibleOutside(d: Document, me: int, rest: set<int>): set<int>
    requires me in d.users
  {
    set u | u in d.users.Keys - rest && Eligible(d, me, u)
  }

  lemma HasMember(s: set<int>)
    requires s != {}
    ensures exists x :: x in s
  {
    if forall x :: x !in s {
      assert false;
    }
  }

  /** Some element of a non-empty set of ids: the next dictionary key visited. */
  method AnyKey(s: set<int>) returns (x: int)
    requires s != {}
    ensures x in s
  {
    HasMember(s);
    x :| x in s;
  }

  /** The candidate list of `/feed`: one pass over the stored profiles keeping the
      eligible ids. The dictionary's own iteration order is not modelled: keys are taken
      in an arbitrary order, which the shuffle that follows makes immaterial. */
  method CollectCandidates(d: Document, me: int) returns (ids: seq<int>)
    requires me in d.users
    ensures IsEnumeration(ids, CandidateIds(d, me))
  {
    var opposite := Opposite(d.users[me].gender);
    var seen := Seen(d.likes, me);
    ids := [];
    var rest := d.users.Keys;
    while rest != {}
      invariant rest <= d.users.Keys
      invariant multiset(ids) == multiset(EligibleOutside(d, me, rest))
      decreases rest
    {
      var uid := AnyKey(rest);
      if d.users[uid].gender == opposite && uid != me && uid !in seen {
        ids := ids + [uid];
      }
      assert EligibleOutside(d, me, rest - {uid})
          == EligibleOutside(d, me, rest) + (if Eligible(d, me, uid) then {uid} else {});
      rest := rest - {uid};
    }
    assert EligibleOutside(d, me, rest) == CandidateIds(d, me);
  }

  /** `random.shuffle`: the Fisher-Yates pass of CPython, swapping position `i` with a
      drawn position `j <= i` for `i` from the last index down to 1. The random source is
      the parameter `draw`; only the permutation is modelled, not the distribution. */
  method Shuffle(a: array<int>, draw: nat -> nat)
    modifies a
    ensures multiset(a[..]) == multiset(old(a[..]))
  {
    if a.Length == 0 {
      return;
    }
    for i := a.Length downto 1
      invariant multiset(a[..]) == multiset(old(a[..]))
    {
      var j := draw(i) % (i + 1);
      a[i], a[j] := a[j], a[i];
    }
  }

  /** `GET /feed/{id}?limit=`: 404 "Register first" without a profile; otherwise the
      profiles of `order[:limit]`, where `order` is a shuffled enumeration of the
      eligible ids. */
  method GetFeed(d: Document, tgId: int, limit: int, draw: nat -> nat)
    returns (r: Result<seq<Profile>>, ghost order: seq<int>)
    ensures r.Err? <==> tgId !in d.users
    ensures r.Err? ==> r.failure == RegisterFirst
    ensures r.Ok? ==>
      && IsEnumeration(order, CandidateIds(d, tgId))
      && (forall i :: 0 <= i < |order| ==> order[i] in d.users)
      && r.value == ProfilesOf(d.users, order[..PrefixLength(|order|, limit)])
  {
    if tgId !in d.users {
      return Err(RegisterFirst), [];
    }
    var ids := CollectCandidates(d, tgId);
    var a := new int[|ids|](i requires 0 <= i < |ids| => ids[i]);
    assert a[..] == ids;
    Shuffle(a, draw);
    var shuffled := a[..];
    forall i | 0 <= i < |shuffled| ensures shuffled[i] in d.users {
      assert shuffled[i] in multiset(shuffled);
    }
    var n := PrefixLength(|shuffled|, limit);
    r := Ok(ProfilesOf(d.users, shuffled[..n]));
    order := shuffled;
  }

  // ---------------------------------------------------------------- /like

  /** Some ledger entry points from `toId` back to `fromId` with a positive action. */
  predicate HasReverse(likes: seq<LikeAction>, fromId: int, toId: int)
  {
    exists i :: 0 <= i < |likes| && likes[i].fromId == toId && likes[i].toId == fromId
                && IsPositive(likes[i].action)
  }

  /** The `matched` flag of `POST /like` for ledger `likes` (before the append): the
      reverse check runs on the ledger that already holds `a`. */
  predicate Matched(likes: seq<LikeAction>, a: LikeAction)
  {
    IsPositive(a.action) && HasReverse(likes + [a], a.fromId, a.toId)
  }

  /** The document after `POST /like`: the action is appended to the ledger, and a
      match record `(fromId, toId)` is appended when it matched. */
  function AfterLike(d: Document, a: LikeAction): Document
  {
    Document(
      d.users,
      d.likes + [a],
      if Matched(d.likes, a) then d.matches + [MatchRecord(a.fromId, a.toId)] else d.matches)
  }

  // ---------------------------------------------------------------- /matches

  /** The other id of a match record that involves `me`, looking at `user1` first. */
  function OtherParty(m: MatchRecord, me: int): Option<int>
  {
    if m.user1 == me then Some(m.user2)
    else if m.user2 == me then Some(m.user1)
    else None
  }

  /** What one match record contributes to `/matches`: the other party's profile, unless
      the other id is 0 (falsy) or has no stored profile. */
  function Resolve(users: map<int, Profile>, m: MatchRecord, me: int): seq<Profile>
  {
    match OtherParty(m, me)
    case Some(o) => if o != 0 && o in users then [users[o]] else []
    case None => []
  }

  /** The profiles `/matches` lists for the match records `ms`, in their order. */
  function MatchedProfiles(users: map<int, Profile>, ms: seq<MatchRecord>, me: int): seq<Profile>
    decreases |ms|
  {
    if ms == [] then []
    else MatchedProfiles(users, ms[..|ms| - 1], me) + Resolve(users, ms[|ms| - 1], me)
  }

  /** `GET /matches/{id}`: one pass over the match records, appending each other
      party's profile. */
  method GetMatches(d: Document, tgId: int) returns (r: seq<Profile>)
    ensures r == MatchedProfiles(d.users, d.matches, tgId)
  {
    r := [];
    for i := 0 to |d.matches|
      invariant r == MatchedProfiles(d.users, d.matches[..i], tgId)
    {
      var other := OtherParty(d.matches[i], tgId);
      if other.Some? && other.value != 0 {
        if other.value in d.users {
          r := r + [d.users[other.value]];
        }
      }
      assert d.matches[..i + 1][..i] == d.matches[..i];
    }
    assert d.matches[..|d.matches|] == d.matches;
  }

  // ---------------------------------------------------------------- /stats

  /** Ledger entries aimed at `me` whose action is exactly "like". */
  function LikesReceived(likes: seq<LikeAction>, me: int): (n: nat)
    ensures n <= |likes|
  {
    if likes == [] then 0
    else (if likes[0].toId == me && likes[0].action == "like" then 1 else 0)
         + LikesReceived(likes[1..], me)
  }

  /** Match records with `me` in either slot. */
  function MatchCount(ms: seq<MatchRecord>, me: int): (n: nat)
    ensures n <= |ms|
  {
    if ms == [] then 0
    else (if ms[0].user1 == me || ms[0].user2 == me then 1 else 0) + MatchCount(ms[1..], me)
  }

  /** `GET /stats/{id}`: likes received, matches, and views derived as three per like. */
  function GetStats(d: Document, tgId: int): (s: Stats)
    ensures s.views == 3 * s.likes
    ensures 0 <= s.likes <= |d.likes|
    ensures 0 <= s.matches <= |d.matches|
  {
    var received := LikesReceived(d.likes, tgId);
    Stats(received, MatchCount(d.matches, tgId), received * 3)
  }
}
