/** User accounts: a key-value store in which the list of names is one comma-separated string. */
module UserDirectory {
  import opened Common

  type Store = map<string, string>

  const LIST_KEY := "system:user_list"
  const DEFAULT_LIST := "admin,user1"

  // ---- The list as a string -----------------------------------------------------------------------

  function Piece(p: string): seq<string> {
    if p == "" then [] else [p]
  }

  /** The non-empty pieces of `s` from `start` on, when there is no comma between `start` and `i`. */
  function PiecesFrom(s: string, start: nat, i: nat): seq<string>
    requires start <= i <= |s|
    decreases |s| - i
  {
    if i == |s| then Piece(s[start..i])
    else if s[i] == ',' then Piece(s[start..i]) + PiecesFrom(s, i + 1, i + 1)
    else PiecesFrom(s, start, i + 1)
  }

  /** The non-empty pieces between commas. */
  function Names(s: string): seq<string> {
    PiecesFrom(s, 0, 0)
  }

  /** `needle` occurs somewhere in `hay`; the empty string occurs everywhere. */
  ghost predicate Contains(hay: string, needle: string) {
    exists i :: OccursAt(hay, needle, i)
  }

  ghost predicate OccursAt(hay: string, needle: string, i: int) {
    0 <= i <= |hay| - |needle| && hay[i..i + |needle|] == needle
  }

  /** That is: `hay` has `needle` between two strings. */
  lemma ContainsIff(hay: string, needle: string)
    ensures Contains(hay, needle) <==> exists front, back :: hay == front + needle + back
  {
    if i :| OccursAt(hay, needle, i) {
      assert hay == hay[..i] + needle + hay[i + |needle|..];
    }
    if front, back :| hay == front + needle + back {
      assert OccursAt(hay, needle, |front|);
    }
  }

  predicate ProperName(name: string) {
    name != "" && ',' !in name
  }

  /** Splitting undoes appending, for all strings. */
  lemma NamesOfAppended(s: string, t: string)
    ensures Names(s + "," + t) == Names(s) + Names(t)
  {
    PiecesOfAppended(s, t, 0, 0);
  }

  lemma {:induction false} PiecesOfAppended(s: string, t: string, start: nat, i: nat)
    requires start <= i <= |s|
    ensures PiecesFrom(s + "," + t, start, i) == PiecesFrom(s, start, i) + Names(t)
    decreases |s| - i
  {
    var whole := s + "," + t;
    assert whole[start..i] == s[start..i];
    if i == |s| {
      assert whole[i] == ',';
      PiecesShift(s + ",", t, 0, 0);
    } else {
      assert whole[i] == s[i];
      PiecesOfAppended(s, t, if s[i] == ',' then i + 1 else start, i + 1);
    }
  }

  lemma {:induction false} PiecesShift(front: string, t: string, start: nat, i: nat)
    requires start <= i <= |t|
    ensures PiecesFrom(front + t, |front| + start, |front| + i) == PiecesFrom(t, start, i)
    decreases |t| - i
  {
    assert (front + t)[|front| + start..|front| + i] == t[start..i];
    if i < |t| {
      assert (front + t)[|front| + i] == t[i];
      PiecesShift(front, t, if t[i] == ',' then i + 1 else start, i + 1);
    }
  }

  /** The pieces are proper names, each of which occurs in the string. */
  lemma {:induction false} PiecesAreProper(s: string, start: nat, i: nat, name: string)
    requires start <= i <= |s| && ',' !in s[start..i] && name in PiecesFrom(s, start, i)
    ensures ProperName(name) && Contains(s, name)
    decreases |s| - i
  {
    if start < i && name == s[start..i] && (i == |s| || s[i] == ',') {
      assert OccursAt(s, name, start);
    } else if s[i] == ',' {
      PiecesAreProper(s, i + 1, i + 1, name);
    } else {
      OneMoreCharacter(s, start, i);
      PiecesAreProper(s, start, i + 1, name);
    }
  }

  lemma OneMoreCharacter(s: string, start: nat, i: nat)
    requires start <= i < |s|
    ensures s[start..i + 1] == s[start..i] + [s[i]]
  {
  }

  lemma NamesAreProper(s: string, name: string)
    requires name in Names(s)
    ensures ProperName(name) && Contains(s, name)
  {
    PiecesAreProper(s, 0, 0, name);
  }

  lemma {:induction false} NamesOfProper(name: string, i: nat)
    requires ProperName(name) && i <= |name|
    ensures PiecesFrom(name, 0, i) == [name]
    decreases |name| - i
  {
    if i == |name| {
      assert name[0..i] == name;
    } else {
      NamesOfProper(name, i + 1);
    }
  }

  // ---- The service --------------------------------------------------------------------------------

  function UserKey(name: string): string { "user:" + name }

  function RoleKey(name: string): string { "role:" + name }

  /** The list in force: the stored one, or the default. */
  function ListOf(kv: Store): string {
    if LIST_KEY in kv then kv[LIST_KEY] else DEFAULT_LIST
  }

  ghost function Extended(list: string, name: string): string {
    if Contains(list, name) then list else list + "," + name
  }

  ghost predicate Creates(kv: Store, name: string) {
    UserKey(name) !in kv
  }

  ghost function Create(kv: Store, name: string, password: string, role: string): Store {
    if !Creates(kv, name) then kv
    else
      var kv1 := kv[UserKey(name) := password][RoleKey(name) := role];
      if Contains(ListOf(kv), name) then kv1 else kv1[LIST_KEY := Extended(ListOf(kv), name)]
  }

  lemma KeysApart(name: string, other: string)
    ensures UserKey(name) != LIST_KEY && RoleKey(name) != LIST_KEY && UserKey(name) != RoleKey(other)
    ensures UserKey(name) == UserKey(other) ==> name == other
    ensures RoleKey(name) == RoleKey(other) ==> name == other
  {
    assert UserKey(name)[0] == 'u' && RoleKey(name)[0] == 'r' && RoleKey(other)[0] == 'r' && LIST_KEY[0] == 's';
    assert UserKey(name)[5..] == name && UserKey(other)[5..] == other;
    assert RoleKey(name)[5..] == name && RoleKey(other)[5..] == other;
  }

  lemma CreateExtendsList(kv: Store, name: string, password: string, role: string)
    ensures ListOf(Create(kv, name, password, role)) ==
            if Creates(kv, name) then Extended(ListOf(kv), name) else ListOf(kv)
  {
    KeysApart(name, name);
  }

  /** What a creation stores: password, role and the list, and only for a name that has no account. */
  lemma CreationStoresExactly(kv: Store, name: string, password: string, role: string)
    ensures "user:" + name in kv ==> Create(kv, name, password, role) == kv
    ensures "user:" + name !in kv ==>
              var kv' := Create(kv, name, password, role);
              && "user:" + name in kv' && kv'["user:" + name] == password
              && "role:" + name in kv' && kv'["role:" + name] == role
              && forall key :: key !in {"user:" + name, "role:" + name, "system:user_list"} ==>
                   (key in kv' <==> key in kv) && (key in kv ==> kv'[key] == kv[key])
  {
    KeysApart(name, name);
  }

  /** The role that a listing shows for a name. */
  predicate IsAdmin(kv: Store, name: string) {
    RoleKey(name) in kv && kv[RoleKey(name)] == "admin"
  }

  /** A new account is shown as an administrator's exactly if it was created as one, and nobody else is shown
      differently from before. */
  lemma CreatedRoleIsShown(kv: Store, name: string, password: string, admin: bool, other: string)
    requires Creates(kv, name)
    ensures var kv' := Create(kv, name, password, if admin then "admin" else "user");
            IsAdmin(kv', name) == admin && (other != name ==> IsAdmin(kv', other) == IsAdmin(kv, other))
  {
    KeysApart(name, name);
    KeysApart(name, other);
    KeysApart(other, name);
  }

  /** Exactly when an account that has just been created is listed: its name was listed already, or it is a
      proper name that does not occur anywhere in the list string. */
  lemma CreatedUserIsListedIff(kv: Store, name: string, password: string, role: string)
    requires Creates(kv, name)
    ensures name in Names(ListOf(Create(kv, name, password, role))) <==>
            name in Names(ListOf(kv)) || (ProperName(name) && !Contains(ListOf(kv), name))
  {
    CreateExtendsList(kv, name, password, role);
    var list := ListOf(kv);
    if !Contains(list, name) {
      NamesOfAppended(list, name);
      if ProperName(name) {
        NamesOfProper(name, 0);
      } else if name in Names(name) {
        NamesAreProper(name, name);
      }
    }
  }

  /** An account that exists and is never listed: "min" occurs inside "admin". */
  lemma UnlistedUser(kv: Store, password: string, role: string)
    requires ListOf(kv) == DEFAULT_LIST && Creates(kv, "min")
    ensures "min" !in Names(ListOf(Create(kv, "min", password, role)))
  {
    assert OccursAt(DEFAULT_LIST, "min", 2);
    DefaultNames();
    assert "min" !in ["admin", "user1"];
    CreatedUserIsListedIff(kv, "min", password, role);
  }

  datatype Account = Account(name: string, password: string, role: string)

  ghost function CreateAll(kv: Store, accounts: seq<Account>): Store
    decreases accounts
  {
    if accounts == [] then kv
    else CreateAll(Create(kv, accounts[0].name, accounts[0].password, accounts[0].role), accounts[1..])
  }

  /** What one creation adds to the listing: nothing if the account exists or the name occurs in the list at
      the time, otherwise the pieces of the name. */
  ghost function Adds(kv: Store, name: string): seq<string> {
    if Creates(kv, name) && !Contains(ListOf(kv), name) then Names(name) else []
  }

  ghost function Added(kv: Store, accounts: seq<Account>): seq<string>
    decreases accounts
  {
    if accounts == [] then []
    else
      var a := accounts[0];
      Adds(kv, a.name) + Added(Create(kv, a.name, a.password, a.role), accounts[1..])
  }

  /** Nothing that this creation adds is in the listing already, or added twice. */
  ghost predicate AddsAfresh(kv: Store, name: string) {
    NoDuplicates(Adds(kv, name)) && forall n :: n in Adds(kv, name) ==> n !in Names(ListOf(kv))
  }

  ghost predicate AllAddAfresh(kv: Store, accounts: seq<Account>)
    decreases accounts
  {
    accounts == [] ||
    (var a := accounts[0];
     AddsAfresh(kv, a.name) && AllAddAfresh(Create(kv, a.name, a.password, a.role), accounts[1..]))
  }

  /** Over every sequence of creations the listing is the original names followed by what each creation added,
      in order; and a listing without duplicates stays so exactly if each creation adds afresh. */
  lemma {:induction false} ListingAfterCreations(kv: Store, accounts: seq<Account>)
    ensures Names(ListOf(CreateAll(kv, accounts))) == Names(ListOf(kv)) + Added(kv, accounts)
    ensures NoDuplicates(Names(ListOf(kv)))
            ==> (NoDuplicates(Names(ListOf(CreateAll(kv, accounts)))) <==> AllAddAfresh(kv, accounts))
    decreases accounts
  {
    if accounts != [] {
      var a := accounts[0];
      var kv1 := Create(kv, a.name, a.password, a.role);
      CreationExtendsListing(kv, a.name, a.password, a.role);
      if NoDuplicates(Names(ListOf(kv))) {
        DuplicateFreeIff(kv, a.name, a.password, a.role);
      }
      ListingAfterCreations(kv1, accounts[1..]);
      Reassociate(Names(ListOf(kv)), Adds(kv, a.name), Added(kv1, accounts[1..]));
      DuplicatesStay(Names(ListOf(kv1)), Added(kv1, accounts[1..]));
    }
  }

  lemma DuplicatesStay(x: seq<string>, y: seq<string>)
    ensures NoDuplicates(x + y) ==> NoDuplicates(x)
  {
    if NoDuplicates(x + y) {
      forall i, j | 0 <= i < j < |x| ensures x[i] != x[j] {
        assert (x + y)[i] == x[i] && (x + y)[j] == x[j];
      }
    }
  }

  lemma Reassociate(x: seq<string>, y: seq<string>, z: seq<string>)
    ensures (x + y) + z == x + (y + z)
  {
  }

  lemma CreationExtendsListing(kv: Store, name: string, password: string, role: string)
    ensures Names(ListOf(Create(kv, name, password, role))) == Names(ListOf(kv)) + Adds(kv, name)
  {
    CreateExtendsList(kv, name, password, role);
    if Creates(kv, name) && !Contains(ListOf(kv), name) {
      NamesOfAppended(ListOf(kv), name);
    }
  }

  /** A listing without duplicates stays so exactly when the account is not new, or its name occurs in the list
      string, or the pieces of its name differ from each other and from all that is listed. */
  lemma DuplicateFreeIff(kv: Store, name: string, password: string, role: string)
    requires NoDuplicates(Names(ListOf(kv)))
    ensures NoDuplicates(Names(ListOf(Create(kv, name, password, role)))) <==>
            (Creates(kv, name) && !Contains(ListOf(kv), name) ==>
              NoDuplicates(Names(name)) && forall n :: n in Names(name) ==> n !in Names(ListOf(kv)))
  {
    CreationExtendsListing(kv, name, password, role);
    DistinctConcatenation(Names(ListOf(kv)), Adds(kv, name));
  }

  lemma DistinctConcatenation(x: seq<string>, y: seq<string>)
    requires NoDuplicates(x)
    ensures NoDuplicates(x + y) <==> NoDuplicates(y) && forall n :: n in y ==> n !in x
  {
    var z := x + y;
    if NoDuplicates(z) {
      forall i, j | 0 <= i < j < |y| ensures y[i] != y[j] {
        assert z[|x| + i] == y[i] && z[|x| + j] == y[j];
      }
      forall i, j | 0 <= i < |x| && 0 <= j < |y| ensures x[i] != y[j] {
        assert z[i] == x[i] && z[|x| + j] == y[j];
      }
    }
    if NoDuplicates(y) && forall n :: n in y ==> n !in x {
      forall i, j | 0 <= i < j < |z| ensures z[i] != z[j] {
        if i < |x| <= j {
          assert z[i] in x && z[j] == y[j - |x|] && z[j] in y;
        } else {
          assert z[i] == if i < |x| then x[i] else y[i - |x|];
          assert z[j] == if j < |x| then x[j] else y[j - |x|];
        }
      }
    }
  }

  /** A proper name always adds afresh, and adds itself. */
  lemma ProperNameAddsAfresh(kv: Store, name: string)
    requires ProperName(name)
    ensures AddsAfresh(kv, name) && (Adds(kv, name) == [] || Adds(kv, name) == [name])
  {
    NamesOfProper(name, 0);
    if name in Names(ListOf(kv)) {
      NamesAreProper(ListOf(kv), name);
    }
  }

  lemma FirstCharacterOccurs(hay: string, needle: string)
    requires needle != ""
    ensures Contains(hay, needle) ==> needle[0] in hay
  {
    if i :| OccursAt(hay, needle, i) {
      assert hay[i..i + |needle|][0] == hay[i];
    }
  }

  /** A name with a comma in it can list somebody a second time. */
  lemma CommaNameListsTwice(kv: Store, password: string, role: string)
    requires ListOf(kv) == DEFAULT_LIST && Creates(kv, "x,user1")
    ensures Names(ListOf(Create(kv, "x,user1", password, role))) == ["admin", "user1", "x", "user1"]
  {
    DefaultNames();
    FirstCharacterOccurs(DEFAULT_LIST, "x,user1");
    assert 'x' !in DEFAULT_LIST;
    assert "x,user1" == "x" + "," + "user1";
    NamesOfAppended("x", "user1");
    NamesOfProper("x", 0);
    NamesOfProper("user1", 0);
    CreationExtendsListing(kv, "x,user1", password, role);
  }

  class MasterService {
    var kv: Store

    constructor (kv: Store)
      ensures this.kv == kv
    {
      this.kv := kv;
    }

    method CreateUser(name: string, password: string, admin: bool) returns (created: bool)
      modifies this
      ensures created == Creates(old(kv), name)
      ensures kv == Create(old(kv), name, password, if admin then "admin" else "user")
    {
      var role := if admin then "admin" else "user";
      if UserKey(name) in kv {
        return false;
      }
      KeysApart(name, name);
      kv := kv[UserKey(name) := password];
      kv := kv[RoleKey(name) := role];
      var list := DEFAULT_LIST;
      if LIST_KEY in kv {
        list := kv[LIST_KEY];
      }
      var found := Find(list, name);
      if !found {
        list := list + "," + name;
        kv := kv[LIST_KEY := list];
      }
      return true;
    }

    /** Each listed name with whether it is an administrator's. */
    method AdminListUsers() returns (users: seq<(string, bool)>)
      ensures |users| == |Names(ListOf(kv))|
      ensures forall k :: 0 <= k < |users| ==>
              var name := Names(ListOf(kv))[k];
              users[k] == (name, IsAdmin(kv, name))
    {
      var names := ["admin", "user1"];
      if LIST_KEY in kv {
        names := Split(kv[LIST_KEY]);
      } else {
        DefaultNames();
      }
      users := [];
      for k := 0 to |names|
        invariant |users| == k
        invariant forall j :: 0 <= j < k ==>
                  users[j] == (names[j], IsAdmin(kv, names[j]))
      {
        var role := RoleKey(names[k]);
        users := users + [(names[k], role in kv && kv[role] == "admin")];
      }
    }
  }

  lemma DefaultNames()
    ensures Names(DEFAULT_LIST) == ["admin", "user1"]
  {
    assert DEFAULT_LIST == "admin" + "," + "user1";
    NamesOfAppended("admin", "user1");
    NamesOfProper("admin", 0);
    NamesOfProper("user1", 0);
  }

  /** Substring search. */
  method Find(hay: string, needle: string) returns (found: bool)
    ensures found == Contains(hay, needle)
  {
    var i := 0;
    while i + |needle| <= |hay|
      invariant 0 <= i
      invariant forall j :: j < i ==> !OccursAt(hay, needle, j)
    {
      if hay[i..i + |needle|] == needle {
        assert OccursAt(hay, needle, i);
        return true;
      }
      i := i + 1;
    }
    return false;
  }

  /** The pieces from position `start` on, where `|s| + 1` is past the end. */
  function Rest(s: string, start: nat): seq<string> {
    if start <= |s| then PiecesFrom(s, start, start) else []
  }

  /** Up to the next comma, or the end, there is one piece. */
  lemma {:induction false} PieceUpTo(s: string, start: nat, i: nat, stop: nat)
    requires start <= i <= stop <= |s| && (stop < |s| ==> s[stop] == ',')
    requires forall k :: i <= k < stop ==> s[k] != ','
    ensures PiecesFrom(s, start, i) == Piece(s[start..stop]) + Rest(s, stop + 1)
    decreases stop - i
  {
    if i < stop {
      PieceUpTo(s, start, i + 1, stop);
    }
  }

  /** The loop that cuts the stored string at its commas and keeps the non-empty pieces. */
  method Split(s: string) returns (names: seq<string>)
    ensures names == Names(s)
  {
    names := [];
    var start := 0;
    while start <= |s|
      invariant 0 <= start <= |s| + 1
      invariant names + Rest(s, start) == Names(s)
    {
      var stop := start;
      while stop < |s| && s[stop] != ','
        invariant start <= stop <= |s|
        invariant forall k :: start <= k < stop ==> s[k] != ','
      {
        stop := stop + 1;
      }
      PieceUpTo(s, start, start, stop);
      Reassociate(names, Piece(s[start..stop]), Rest(s, stop + 1));
      if start < stop {
        names := names + [s[start..stop]];
      }
      start := stop + 1;
    }
  }
}
