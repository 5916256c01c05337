/**
  The accessory unlocker (unlockAccessoriesForLevel): every catalogue entry
  whose unlock level equals the new level exactly is recorded as owned by the
  user, one insert per entry. A failed catalogue lookup ends the step, a
  failed insert skips that entry, and nothing here is reported to the caller.
*/
module Unlocker {
  import opened Entities

  /** Catalogue entry `i` unlocks at `level`, is accessory `id`, and its insert succeeds. */
  predicate Grants(catalog: seq<Accessory>, i: int, level: int, insertFails: set<AccessoryId>, id: AccessoryId) {
    0 <= i < |catalog| && catalog[i].unlockLevel == level && catalog[i].id == id && id !in insertFails
  }

  /** The ownership pairs the catalogue lookup and inserts produce, entry by entry in catalogue order. */
  function Inserted(catalog: seq<Accessory>, userId: UserId, level: int, insertFails: set<AccessoryId>): (r: set<(UserId, AccessoryId)>)
    ensures forall u, id :: (u, id) in r <==> u == userId && exists i :: Grants(catalog, i, level, insertFails, id)
    decreases |catalog|
  {
    if |catalog| == 0 then {}
    else
      var a := catalog[0];
      var rest := Inserted(catalog[1..], userId, level, insertFails);
      assert forall i, id :: 1 <= i < |catalog| ==>
        Grants(catalog, i, level, insertFails, id) == Grants(catalog[1..], i - 1, level, insertFails, id);
      assert forall j, id :: Grants(catalog[1..], j, level, insertFails, id) ==> Grants(catalog, j + 1, level, insertFails, id);
      if a.unlockLevel == level && a.id !in insertFails then
        assert Grants(catalog, 0, level, insertFails, a.id);
        rest + {(userId, a.id)}
      else
        assert forall id :: !Grants(catalog, 0, level, insertFails, id);
        rest
  }

  /** The store after unlocking the accessories of `level` for `userId`. */
  function UnlockForLevel(store: Store, userId: UserId, level: int, lookupFails: bool, insertFails: set<AccessoryId>): (s: Store)
    ensures s.logs == store.logs && s.habits == store.habits
    ensures s.profiles == store.profiles && s.catalog == store.catalog
    ensures store.owned <= s.owned
    ensures lookupFails ==> s.owned == store.owned
    ensures forall p :: p in s.owned && p !in store.owned ==>
      p.0 == userId && exists a :: a in store.catalog && a.id == p.1 && a.unlockLevel == level
    ensures !lookupFails ==> forall a :: a in store.catalog && a.unlockLevel == level && a.id !in insertFails ==>
      (userId, a.id) in s.owned
  {
    if lookupFails then store
    else
      assert forall i :: 0 <= i < |store.catalog| && store.catalog[i].unlockLevel == level && store.catalog[i].id !in insertFails ==>
        Grants(store.catalog, i, level, insertFails, store.catalog[i].id);
      store.(owned := store.owned + Inserted(store.catalog, userId, level, insertFails))
  }

  /** Unlocking the same level twice adds nothing the first call did not. */
  lemma UnlockIdempotent(store: Store, userId: UserId, level: int, lookupFails: bool, insertFails: set<AccessoryId>)
    ensures UnlockForLevel(UnlockForLevel(store, userId, level, lookupFails, insertFails), userId, level, lookupFails, insertFails)
         == UnlockForLevel(store, userId, level, lookupFails, insertFails)
  {
  }
}
