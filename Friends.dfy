/**
 Friend records and the three list transforms the app applies to its friend list:
 appending a new record, removing records by id (a `filter`) and flipping one
 notification setting on records with a given id (a `map` with object spread).
 */
module Friends {
  import opened Text

  /** One of the three boolean fields the toggle buttons name. */
  datatype Setting = SoundEnabled | VibrationEnabled | NotificationEnabled

  datatype Friend = Friend(
    id: string,
    name: string,
    soundEnabled: bool,
    vibrationEnabled: bool,
    notificationEnabled: bool)

  /** `friend[setting]` */
  function Flag(f: Friend, s: Setting): bool {
    match s
    case SoundEnabled => f.soundEnabled
    case VibrationEnabled => f.vibrationEnabled
    case NotificationEnabled => f.notificationEnabled
  }

  /** `{ ...friend, [setting]: !friend[setting] }`: the named flag negated, every other field kept. */
  function Toggled(f: Friend, s: Setting): (r: Friend)
    ensures Flag(r, s) == !Flag(f, s)
    ensures forall t :: t != s ==> Flag(r, t) == Flag(f, t)
    ensures r.id == f.id && r.name == f.name
  {
    match s
    case SoundEnabled => f.(soundEnabled := !f.soundEnabled)
    case VibrationEnabled => f.(vibrationEnabled := !f.vibrationEnabled)
    case NotificationEnabled => f.(notificationEnabled := !f.notificationEnabled)
  }

  /** The record the add-friend form creates: every notification setting switched on. */
  function NewFriend(id: string, name: string): (r: Friend)
    ensures r.id == id && r.name == name
    ensures forall s :: Flag(r, s)
  {
    Friend(id, name, true, true, true)
  }

  /** `friends.some(f => f.id === id)` */
  predicate HasId(fs: seq<Friend>, id: string) {
    exists i :: 0 <= i < |fs| && fs[i].id == id
  }

  /** No two records of the list share an id. */
  predicate UniqueIds(fs: seq<Friend>) {
    forall i, j :: 0 <= i < j < |fs| ==> fs[i].id != fs[j].id
  }

  // ---------------------------------------------------------------- remove

  /** `friends.filter(f => f.id !== id)` */
  function Removed(fs: seq<Friend>, id: string): (r: seq<Friend>)
    ensures |r| <= |fs|
    ensures forall f :: f in r <==> f in fs && f.id != id
  {
    if fs == [] then []
    else if fs[0].id == id then Removed(fs[1..], id)
    else [fs[0]] + Removed(fs[1..], id)
  }

  /** Removal works record by record and keeps the order: on a concatenation it is
      the concatenation of the removals, and on one record it keeps it exactly when
      its id differs. Together these pin down the filter. */
  lemma {:induction false} RemovedConcat(a: seq<Friend>, b: seq<Friend>, id: string)
    ensures Removed(a + b, id) == Removed(a, id) + Removed(b, id)
  {
    if a == [] {
      assert a + b == b;
    } else {
      assert (a + b)[1..] == a[1..] + b;
      RemovedConcat(a[1..], b, id);
    }
  }

  lemma RemovedSingle(f: Friend, id: string)
    ensures Removed([f], id) == if f.id == id then [] else [f]
  {
    assert [f][1..] == [];
  }

  /** Removing an id nobody has changes nothing. */
  lemma {:induction false} RemovedAbsent(fs: seq<Friend>, id: string)
    requires !HasId(fs, id)
    ensures Removed(fs, id) == fs
  {
    if fs != [] {
      assert fs[0].id != id;
      forall i | 0 <= i < |fs[1..]| ensures fs[1..][i].id != id {
        assert fs[1..][i] == fs[i + 1];
      }
      RemovedAbsent(fs[1..], id);
      assert fs == [fs[0]] + fs[1..];
    }
  }

  /** After a removal no record has that id any more. */
  lemma RemovedLacksId(fs: seq<Friend>, id: string)
    ensures !HasId(Removed(fs, id), id)
  {
    var r := Removed(fs, id);
    forall i | 0 <= i < |r| ensures r[i].id != id {
      assert r[i] in r;
    }
  }

  /** Removing the same id twice is the same as removing it once. */
  lemma RemovedIdempotent(fs: seq<Friend>, id: string)
    ensures Removed(Removed(fs, id), id) == Removed(fs, id)
  {
    RemovedLacksId(fs, id);
    RemovedAbsent(Removed(fs, id), id);
  }

  lemma {:induction false} UniqueIdsCons(f: Friend, fs: seq<Friend>)
    ensures UniqueIds([f] + fs) <==> !HasId(fs, f.id) && UniqueIds(fs)
  {
    var l := [f] + fs;
    if UniqueIds(l) {
      forall i | 0 <= i < |fs| ensures fs[i].id != f.id {
        assert l[0] == f && l[i + 1] == fs[i];
      }
      forall i, j | 0 <= i < j < |fs| ensures fs[i].id != fs[j].id {
        assert l[i + 1] == fs[i] && l[j + 1] == fs[j];
      }
    }
    if !HasId(fs, f.id) && UniqueIds(fs) {
      forall i, j | 0 <= i < j < |l| ensures l[i].id != l[j].id {
        if i == 0 {
          assert l[j] == fs[j - 1];
        } else {
          assert l[i] == fs[i - 1] && l[j] == fs[j - 1];
        }
      }
    }
  }

  /** Removal keeps ids unique. */
  lemma {:induction false} RemovedKeepsUnique(fs: seq<Friend>, id: string)
    requires UniqueIds(fs)
    ensures UniqueIds(Removed(fs, id))
  {
    if fs != [] {
      assert fs == [fs[0]] + fs[1..];
      UniqueIdsCons(fs[0], fs[1..]);
      RemovedKeepsUnique(fs[1..], id);
      if fs[0].id != id {
        var t := fs[1..];
        var rest := Removed(t, id);
        forall i | 0 <= i < |rest| ensures rest[i].id != fs[0].id {
          assert rest[i] in rest;
          var j :| 0 <= j < |t| && t[j] == rest[i];
        }
        UniqueIdsCons(fs[0], rest);
      }
    }
  }

  /** In a list with unique ids, removal takes out exactly one record when the id is
      present and none when it is absent. */
  lemma {:induction false} RemovedCount(fs: seq<Friend>, id: string)
    requires UniqueIds(fs)
    ensures |Removed(fs, id)| == if HasId(fs, id) then |fs| - 1 else |fs|
  {
    if fs == [] {
    } else {
      var t := fs[1..];
      assert fs == [fs[0]] + t;
      UniqueIdsCons(fs[0], t);
      RemovedCount(t, id);
      if fs[0].id == id {
        RemovedAbsent(t, id);
        assert HasId(fs, id);
      } else {
        assert HasId(fs, id) <==> HasId(t, id) by {
          if HasId(fs, id) {
            var i :| 0 <= i < |fs| && fs[i].id == id;
            assert i > 0 && t[i - 1].id == id;
          }
          if HasId(t, id) {
            var i :| 0 <= i < |t| && t[i].id == id;
            assert fs[i + 1].id == id;
          }
        }
      }
    }
  }

  // ---------------------------------------------------------------- toggle

  /** `friends.map(f => f.id === id ? { ...f, [setting]: !f[setting] } : f)` */
  function ToggledAll(fs: seq<Friend>, id: string, s: Setting): (r: seq<Friend>)
    ensures |r| == |fs|
    ensures forall i :: 0 <= i < |fs| ==>
      r[i] == if fs[i].id == id then Toggled(fs[i], s) else fs[i]
  {
    if fs == [] then []
    else [if fs[0].id == id then Toggled(fs[0], s) else fs[0]] + ToggledAll(fs[1..], id, s)
  }

  /** Toggling the same setting of the same id twice restores the list. */
  lemma ToggledAllTwice(fs: seq<Friend>, id: string, s: Setting)
    ensures ToggledAll(ToggledAll(fs, id, s), id, s) == fs
  {
    var r := ToggledAll(ToggledAll(fs, id, s), id, s);
    forall i | 0 <= i < |fs| ensures r[i] == fs[i] {
      ToggledTwice(fs[i], s);
    }
  }

  lemma ToggledTwice(f: Friend, s: Setting)
    ensures Toggled(Toggled(f, s), s) == f
  {
  }

  /** Toggling keeps the set of ids, so it keeps lookups and uniqueness. */
  lemma ToggledAllKeepsIds(fs: seq<Friend>, id: string, s: Setting, x: string)
    ensures HasId(ToggledAll(fs, id, s), x) == HasId(fs, x)
    ensures UniqueIds(ToggledAll(fs, id, s)) == UniqueIds(fs)
  {
    var r := ToggledAll(fs, id, s);
    assert forall i :: 0 <= i < |fs| ==> r[i].id == fs[i].id;
  }

  // ---------------------------------------------------------------- add

  /** Which way the add-friend handler goes: it appends, or it shows one of its two alerts. */
  datatype AddOutcome = Added | MissingField | AlreadyAdded

  /** The add-friend handler's decision as the code makes it: a field that trims to
      nothing is rejected first, then an id is a duplicate when some record's id
      equals the input EXACTLY, untrimmed. */
  function AddDecision(fs: seq<Friend>, rawId: string, rawName: string): (o: AddOutcome)
    ensures o == MissingField <==> AllWhitespace(rawId) || AllWhitespace(rawName)
    ensures o == AlreadyAdded <==> !AllWhitespace(rawId) && !AllWhitespace(rawName) && HasId(fs, rawId)
  {
    TrimEmptyIff(rawId);
    TrimEmptyIff(rawName);
    if Trim(rawId) == [] || Trim(rawName) == [] then MissingField
    else if HasId(fs, rawId) then AlreadyAdded
    else Added
  }

  /** The duplicate check as evidently intended: compare against the id that will be stored. */
  function AddDecisionCorrected(fs: seq<Friend>, rawId: string, rawName: string): (o: AddOutcome)
    ensures o == MissingField <==> AllWhitespace(rawId) || AllWhitespace(rawName)
    ensures o == AlreadyAdded <==> !AllWhitespace(rawId) && !AllWhitespace(rawName) && HasId(fs, Trim(rawId))
  {
    TrimEmptyIff(rawId);
    TrimEmptyIff(rawName);
    if Trim(rawId) == [] || Trim(rawName) == [] then MissingField
    else if HasId(fs, Trim(rawId)) then AlreadyAdded
    else Added
  }

  /** `[...prev, { id: newFriendId.trim(), name: newFriendName.trim(), ...all true }]` */
  function Appended(fs: seq<Friend>, rawId: string, rawName: string): (r: seq<Friend>)
    ensures |r| == |fs| + 1 && r[..|fs|] == fs
    ensures r[|fs|].id == Trim(rawId) && r[|fs|].name == Trim(rawName)
    ensures forall s :: Flag(r[|fs|], s)
  {
    fs + [NewFriend(Trim(rawId), Trim(rawName))]
  }

  /** Appending one record to a list with unique ids keeps them unique exactly when
      no record already has the new record's id. */
  lemma AppendUniqueIff(fs: seq<Friend>, f: Friend)
    requires UniqueIds(fs)
    ensures UniqueIds(fs + [f]) <==> !HasId(fs, f.id)
  {
    var r := fs + [f];
    var n := |fs|;
    if HasId(fs, f.id) {
      var i :| 0 <= i < n && fs[i].id == f.id;
      assert r[i] == fs[i] && r[n] == f;
    } else {
      forall i, j | 0 <= i < j < |r| ensures r[i].id != r[j].id {
        assert r[i] == fs[i];
        if j < n { assert r[j] == fs[j]; }
      }
    }
  }

  /** With the corrected check, a successful add always keeps ids unique. */
  lemma CorrectedAddKeepsIdsUnique(fs: seq<Friend>, rawId: string, rawName: string)
    requires UniqueIds(fs)
    requires AddDecisionCorrected(fs, rawId, rawName) == Added
    ensures UniqueIds(Appended(fs, rawId, rawName))
  {
    AppendUniqueIff(fs, NewFriend(Trim(rawId), Trim(rawName)));
  }

  /** The two checks agree whenever the typed id is already trimmed. */
  lemma DecisionsAgreeOnTrimmedId(fs: seq<Friend>, rawId: string, rawName: string)
    requires Trim(rawId) == rawId
    ensures AddDecision(fs, rawId, rawName) == AddDecisionCorrected(fs, rawId, rawName)
  {
  }

  /** As written, a successful add keeps ids unique when the typed id is already
      trimmed (no white space at either end). */
  lemma AddKeepsIdsUniqueWhenTrimmed(fs: seq<Friend>, rawId: string, rawName: string)
    requires UniqueIds(fs)
    requires IsTrimmed(rawId)
    requires AddDecision(fs, rawId, rawName) == Added
    ensures UniqueIds(Appended(fs, rawId, rawName))
  {
    TrimFixedIff(rawId);
    DecisionsAgreeOnTrimmedId(fs, rawId, rawName);
    CorrectedAddKeepsIdsUnique(fs, rawId, rawName);
  }

  lemma TrimSpacedBob()
    ensures Trim(" bob") == "bob"
  {
    var s := " bob";
    assert TrimStartIndex(s) == 1 by { assert SkipStart(s, 1) == 1; }
    assert TrimEndIndex(s) == 4;
    assert s[1..4] == "bob";
  }

  /** As written, the check lets a duplicate in: with "bob" on the list, adding
      " bob" passes the check and stores a second "bob". */
  lemma AsWrittenAdmitsDuplicate()
    ensures var fs := [NewFriend("bob", "Bob")];
      AddDecision(fs, " bob", "Bob") == Added &&
      UniqueIds(fs) && !UniqueIds(Appended(fs, " bob", "Bob"))
  {
    var fs := [NewFriend("bob", "Bob")];
    var a, b := " bob", "Bob";
    assert AddDecision(fs, a, b) == Added by {
      assert !AllWhitespace(a) by { assert a[1] == 'b'; }
      assert !AllWhitespace(b) by { assert b[0] == 'B'; }
      assert fs[0].id != a by { assert a[0] != "bob"[0]; }
      assert !HasId(fs, a);
    }
    assert !UniqueIds(Appended(fs, a, b)) by {
      TrimSpacedBob();
      var r := Appended(fs, a, b);
      assert r[0].id == r[1].id;
    }
  }
}
