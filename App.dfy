/**
 The app component's state and its event handlers. Each React state variable is a
 field; each handler is a method that assigns the fields its setters assign.
 */
module KitapApp {
  import opened Text
  import opened Friends
  import opened Identity

  /** The device's key-value store, holding strings under string keys. */
  class Storage {
    var entries: map<string, string>

    constructor (entries: map<string, string>)
      ensures this.entries == entries
    {
      this.entries := entries;
    }
  }

  class App {
    var userId: string
    var friends: seq<Friend>
    var newFriendId: string
    var newFriendName: string
    var showAddFriendModal: bool

    /** The initial values of the component's state. */
    constructor ()
      ensures userId == "" && friends == []
      ensures newFriendId == "" && newFriendName == "" && !showAddFriendModal
    {
      userId := "";
      friends := [];
      newFriendId := "";
      newFriendName := "";
      showAddFriendModal := false;
    }

    /** The start-up effect's identity part: take the stored id, or store a new one. */
    method InitUser(store: Storage, suffix: string)
      modifies this`userId, store`entries
      ensures HasStoredId(old(store.entries)) ==>
        userId == old(store.entries)[UserIdKey] && store.entries == old(store.entries)
      ensures !HasStoredId(old(store.entries)) ==>
        userId == IdPrefix + suffix && store.entries == old(store.entries)[UserIdKey := userId]
      ensures Bootstrapped(userId, store.entries) == Bootstrap(old(store.entries), suffix)
    {
      var id := "";
      if UserIdKey in store.entries {
        id := store.entries[UserIdKey];
      }
      if id == "" {
        id := IdPrefix + suffix;
        store.entries := store.entries[UserIdKey := id];
      }
      userId := id;
    }

    /** The "Add Friend" button. */
    method OpenAddFriendModal()
      modifies this`showAddFriendModal
      ensures showAddFriendModal
    {
      showAddFriendModal := true;
    }

    /** The modal's "Cancel" button: it hides the modal and keeps what was typed. */
    method CancelAddFriend()
      modifies this`showAddFriendModal
      ensures !showAddFriendModal
    {
      showAddFriendModal := false;
    }

    /** Typing into the id field. */
    method EditNewFriendId(text: string)
      modifies this`newFriendId
      ensures newFriendId == text
    {
      newFriendId := text;
    }

    /** Typing into the name field. */
    method EditNewFriendName(text: string)
      modifies this`newFriendName
      ensures newFriendName == text
    {
      newFriendName := text;
    }

    /** The modal's "Add" button. A rejection (either alert) changes nothing; success
        appends one record with the trimmed inputs and every setting on, clears both
        fields and closes the modal. */
    method AddFriend() returns (outcome: AddOutcome)
      modifies this`friends, this`newFriendId, this`newFriendName, this`showAddFriendModal
      ensures outcome == AddDecision(old(friends), old(newFriendId), old(newFriendName))
      ensures outcome == MissingField <==> AllWhitespace(old(newFriendId)) || AllWhitespace(old(newFriendName))
      ensures outcome == AlreadyAdded <==>
        !AllWhitespace(old(newFriendId)) && !AllWhitespace(old(newFriendName)) && HasId(old(friends), old(newFriendId))
      ensures outcome != Added ==>
        friends == old(friends) && newFriendId == old(newFriendId) &&
        newFriendName == old(newFriendName) && showAddFriendModal == old(showAddFriendModal)
      ensures outcome == Added ==>
        friends == old(friends) + [NewFriend(Trim(old(newFriendId)), Trim(old(newFriendName)))] &&
        newFriendId == "" && newFriendName == "" && !showAddFriendModal
      ensures UniqueIds(old(friends)) && IsTrimmed(old(newFriendId)) ==> UniqueIds(friends)
    {
      outcome := AddDecision(friends, newFriendId, newFriendName);
      if outcome != Added {
        return;
      }
      ghost var before := friends;
      friends := friends + [NewFriend(Trim(newFriendId), Trim(newFriendName))];
      if UniqueIds(before) && IsTrimmed(newFriendId) {
        AddKeepsIdsUniqueWhenTrimmed(before, newFriendId, newFriendName);
      }
      newFriendId := "";
      newFriendName := "";
      showAddFriendModal := false;
    }

    /** The delete button of a list row: drop every record with that id. */
    method RemoveFriend(id: string)
      modifies this`friends
      ensures friends == Removed(old(friends), id)
      ensures !HasId(friends, id)
      ensures UniqueIds(old(friends)) ==> UniqueIds(friends)
    {
      RemovedLacksId(friends, id);
      if UniqueIds(friends) {
        RemovedKeepsUnique(friends, id);
      }
      friends := Removed(friends, id);
    }

    /** A toggle button of a list row: flip that setting on every record with that id. */
    method ToggleSetting(id: string, setting: Setting)
      modifies this`friends
      ensures friends == ToggledAll(old(friends), id, setting)
      ensures UniqueIds(friends) == UniqueIds(old(friends))
    {
      ToggledAllKeepsIds(friends, id, setting, id);
      friends := ToggledAll(friends, id, setting);
    }
  }
}
