/** The user store of the bot: every user's record keyed by the user's id,
    and the request handler that looks the presser up, runs the decision and
    writes the result back. Reading and writing the JSON file is not part of
    this model; the store is the map those operations carry. */
module Store {

  import opened Wishes
  import opened UserRecord
  import opened Engine

  type Users = map<int, Record>

  /** `get_user`: the stored record, or a default one that is added to the
      store (and saved) when the id is new. */
  function GetUser(s: Users, id: int): (out: (Users, Record))
    ensures out.0.Keys == s.Keys + {id}
    ensures id in out.0 && out.0[id] == out.1
    ensures id in s ==> out.0 == s
    ensures id !in s ==> out.1 == Default()
    ensures forall u :: u in s ==> u in out.0 && out.0[u] == s[u]
  {
    if id in s then (s, s[id]) else (s[id := Default()], Default())
  }

  /** `process_get_wish` for the user `id` on day `today`, where `ownerId`
      is the configured owner and `i` the wish the random draw picks. */
  function Handle(s: Users, id: int, ownerId: int, today: int, i: WishIndex): (out: (Decision, Users))
    ensures out.1.Keys == s.Keys + {id}
    // no other user's record changes
    ensures forall u :: u in s && u != id ==> out.1[u] == s[u]
    // a user seen for the first time is always granted a wish
    ensures id !in s ==> out.0.Granted? && out.1[id].totalWishes == 1 && out.1[id].streak == 1
    // a refusal only happens to a known non-owner and leaves the store as it was
    ensures out.0.Denied? ==> id in s && id != ownerId && out.1 == s
    // the owner is always granted
    ensures id == ownerId ==> out.0.Granted?
    // the saved record is the step's result from the stored or the new record
    ensures var r := GetUser(s, id).1;
            out.0 == Step(r, today, id == ownerId, i).0 && out.1[id] == Step(r, today, id == ownerId, i).1
  {
    var (s1, r) := GetUser(s, id);
    var (d, r') := Step(r, today, id == ownerId, i);
    if d.Denied? then (d, s1) else (d, s1[id := r'])
  }

  /** Every record in the store satisfies the reachable-state invariant. */
  ghost predicate AllConsistent(s: Users)
  {
    forall u :: u in s ==> Consistent(s[u])
  }

  /** Handling a request keeps every stored record consistent. */
  lemma HandleConsistent(s: Users, id: int, ownerId: int, today: int, i: WishIndex)
    requires AllConsistent(s)
    ensures AllConsistent(Handle(s, id, ownerId, today, i).1)
  {
    var (s1, r) := GetUser(s, id);
    DefaultConsistent();
    assert Consistent(r);
    StepConsistent(r, today, id == ownerId, i);
  }

}
