/** The credential store and the two commands that change it: `/key`
    registers a verified API key, `/deletekey` removes it. */
module Credentials {
  import opened Wrappers
  import opened Api

  /** What the bot keeps per user: the API key and the player name it was verified for. */
  datatype Record = Record(key: string, player: string)

  /** The whole persisted state: user id to record. */
  type Store = map<UserId, Record>

  /** The player name stored when the verification response carries no "name". */
  const DefaultPlayer: string := "Unknown"

  /** Python's `torn_data.get("name", "Unknown")`. */
  function PlayerName(r: Response): string {
    r.name.GetOr(DefaultPlayer)
  }

  datatype KeyReply = InvalidKey | KeySaved(player: string)

  datatype DeleteReply = KeyRemoved | NoKeySaved

  /** The effect of one command: the store afterwards, whether it was written
      back to disk, and the message shown to the user. */
  datatype Update<Reply> = Update(store: Store, saved: bool, reply: Reply)

  /** True when `after` agrees with `before` on every user except `user`. */
  ghost predicate OthersUnchanged(before: Store, after: Store, user: UserId) {
    forall u :: u != user ==> (u in after <==> u in before) && (u in before ==> after[u] == before[u])
  }

  /** `/key <api_key>`: `verification` is the result of fetching the "user" endpoint with `apiKey`.
      A failed, empty or error response leaves the store alone and writes nothing;
      otherwise the user's record is (over)written and the store saved. */
  function RegisterKey(store: Store, user: UserId, apiKey: string, verification: Option<Response>): (u: Update<KeyReply>)
    ensures !Usable(verification) ==> u == Update(store, false, InvalidKey)
    ensures Usable(verification) ==> user in u.store && u.store[user].key == apiKey
    ensures Usable(verification) ==> u.saved && u.reply == KeySaved(u.store[user].player)
    ensures Usable(verification) && verification.value.name.Some? ==> u.store[user].player == verification.value.name.value
    ensures Usable(verification) && verification.value.name.None? ==> u.store[user].player == "Unknown"
    ensures u.store.Keys <= store.Keys + {user}
    ensures OthersUnchanged(store, u.store, user)
  {
    if !Usable(verification) then
      Update(store, false, InvalidKey)
    else
      var player := PlayerName(verification.value);
      Update(store[user := Record(apiKey, player)], true, KeySaved(player))
  }

  /** `/deletekey`: removes the user's record if there is one and saves;
      otherwise nothing changes and nothing is written. */
  function DeleteKey(store: Store, user: UserId): (u: Update<DeleteReply>)
    ensures user !in u.store
    ensures u.saved <==> user in store
    ensures u.reply == (if user in store then KeyRemoved else NoKeySaved)
    ensures user !in store ==> u.store == store
    ensures u.store.Keys == store.Keys - {user}
    ensures OthersUnchanged(store, u.store, user)
  {
    if user in store then
      Update(store - {user}, true, KeyRemoved)
    else
      Update(store, false, NoKeySaved)
  }

  /** Registering the same key with the same verification result a second time changes nothing further. */
  lemma RegisterIdempotent(store: Store, user: UserId, apiKey: string, verification: Option<Response>)
    ensures var once := RegisterKey(store, user, apiKey, verification).store;
            RegisterKey(once, user, apiKey, verification).store == once
  {
  }

  /** A successful registration followed by a deletion leaves the store as it
      was with the user's previous record, if any, removed. */
  lemma DeleteUndoesRegister(store: Store, user: UserId, apiKey: string, verification: Option<Response>)
    requires Usable(verification)
    ensures DeleteKey(RegisterKey(store, user, apiKey, verification).store, user).store == store - {user}
  {
  }

  /** Registration does not depend on whether the user was registered before:
      re-registering overwrites without looking at the old record. */
  lemma RegisterOverwrites(store: Store, user: UserId, apiKey: string, verification: Option<Response>)
    requires Usable(verification)
    ensures RegisterKey(store, user, apiKey, verification).store
         == RegisterKey(DeleteKey(store, user).store, user, apiKey, verification).store
  {
  }

  /** Deleting twice: the second deletion finds nothing, changes nothing and saves nothing. */
  lemma DeleteTwice(store: Store, user: UserId)
    ensures var once := DeleteKey(store, user).store;
            DeleteKey(once, user) == Update(once, false, NoKeySaved)
  {
  }
}
