/**
 The identity bootstrap run once at start-up: keep the id already in storage,
 or make one from a random suffix and store it. Storage is a string-to-string
 map and the random suffix is an input.
 */
module Identity {

  const UserIdKey: string := "userId"
  const IdPrefix: string := "user-"

  /** The stored id counts as present only when it is there and not empty
      (`!id` is true of both `null` and `''`). */
  predicate HasStoredId(entries: map<string, string>) {
    UserIdKey in entries && entries[UserIdKey] != ""
  }

  datatype Bootstrapped = Bootstrapped(id: string, entries: map<string, string>)

  /** The id the app ends up with, and the storage after the bootstrap. */
  function Bootstrap(entries: map<string, string>, suffix: string): (r: Bootstrapped)
    ensures HasStoredId(entries) ==> r.id == entries[UserIdKey] && r.entries == entries
    ensures !HasStoredId(entries) ==> r.id == IdPrefix + suffix && r.entries == entries[UserIdKey := r.id]
    ensures r.id != "" && HasStoredId(r.entries) && r.entries[UserIdKey] == r.id
    ensures forall k :: k != UserIdKey ==> (k in r.entries <==> k in entries)
    ensures forall k :: k != UserIdKey && k in entries ==> r.entries[k] == entries[k]
  {
    if HasStoredId(entries) then Bootstrapped(entries[UserIdKey], entries)
    else
      var id := IdPrefix + suffix;
      assert id[0] == 'u';
      Bootstrapped(id, entries[UserIdKey := id])
  }

  /** A second bootstrap, whatever its random suffix, returns the same id and writes nothing. */
  lemma BootstrapIdempotent(entries: map<string, string>, suffix: string, suffix': string)
    ensures Bootstrap(Bootstrap(entries, suffix).entries, suffix') == Bootstrap(entries, suffix)
  {
  }
}
