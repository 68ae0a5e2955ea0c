/** The stored document as a mutable object: the two write routes change its fields in
    place, as the service mutates the loaded dictionary before writing it back. */
module Storage {
  import opened Data
  import opened Routes

  class Store {
    var users: map<int, Profile>
    var likes: seq<LikeAction>
    var matches: seq<MatchRecord>

    /** The document these fields hold. */
    function Current(): Document
      reads this
    {
      Document(users, likes, matches)
    }

    /** A store with no data file yet: no users, no likes, no matches. */
    constructor ()
      ensures Current() == EmptyDocument
    {
      users := map[];
      likes := [];
      matches := [];
    }

    /** `POST /profile`: store the profile under its id, replacing any earlier one. */
    method UpsertProfile(p: Profile)
      modifies this
      ensures users == old(users)[p.tgId := p]
      ensures likes == old(likes) && matches == old(matches)
      ensures Current() == WithProfile(old(Current()), p)
      ensures KeyedById(old(users)) ==> KeyedById(users)
    {
      users := users[p.tgId := p];
    }

    /** `POST /like`: append the action; if it is positive and some entry of the updated
        ledger points back with a positive action, report a match and append a record. */
    method Like(a: LikeAction) returns (matched: bool)
      modifies this
      ensures users == old(users)
      ensures likes == old(likes) + [a]
      ensures matched <==> IsPositive(a.action) && HasReverse(likes, a.fromId, a.toId)
      ensures matches == old(matches) + (if matched then [MatchRecord(a.fromId, a.toId)] else [])
      ensures matched == Matched(old(likes), a)
      ensures Current() == AfterLike(old(Current()), a)
    {
      likes := likes + [a];
      matched := false;
      if a.action == "like" || a.action == "super" {
        var reverse := HasReverse(likes, a.fromId, a.toId);
        if reverse {
          matched := true;
          matches := matches + [MatchRecord(a.fromId, a.toId)];
        }
      }
    }
  }
}
