/** Creations that overlap. The store is locked call by call, so that a creation is several steps and other
    creations can get in between any two of them, in particular between its reading of the list and its writing
    of the list it has extended. */
module UserCreations {
  import opened Common
  import opened UserDirectory

  /** How far the handler of one request has come. */
  datatype Stage =
    | Arrived               // nothing done yet
    | Vacant                // has found no account of that name
    | WithPassword          // has stored the password
    | WithRole              // has stored the role
    | Read(seen: string)    // has read a list in which the name does not occur
    | Answered(created: bool)

  datatype Call = Call(account: Account, stage: Stage)

  datatype State = State(kv: Store, calls: seq<Call>)

  /** A request arrives, or call `t` makes its next access to the store. */
  datatype Action = Arrive(account: Account) | Proceed(t: nat)

  predicate Enabled(s: State, a: Action) {
    a.Proceed? ==> a.t < |s.calls| && !s.calls[a.t].stage.Answered?
  }

  ghost function Stored(kv: Store, call: Call): Store {
    match call.stage
    case Vacant => kv[UserKey(call.account.name) := call.account.password]
    case WithPassword => kv[RoleKey(call.account.name) := call.account.role]
    case Read(seen) => kv[LIST_KEY := seen + "," + call.account.name]
    case _ => kv
  }

  ghost function Advanced(kv: Store, call: Call): Stage {
    match call.stage
    case Arrived => if Creates(kv, call.account.name) then Vacant else Answered(false)
    case Vacant => WithPassword
    case WithPassword => WithRole
    case WithRole => if Contains(ListOf(kv), call.account.name) then Answered(true) else Read(ListOf(kv))
    case _ => Answered(true)
  }

  ghost function Next(s: State, a: Action): State
    requires Enabled(s, a)
  {
    match a
    case Arrive(account) => s.(calls := s.calls + [Call(account, Arrived)])
    case Proceed(t) =>
      var call := s.calls[t];
      State(Stored(s.kv, call), s.calls[t := call.(stage := Advanced(s.kv, call))])
  }

  ghost predicate IsRun(s: State, acts: seq<Action>)
    decreases acts
  {
    acts == [] || (Enabled(s, acts[0]) && IsRun(Next(s, acts[0]), acts[1..]))
  }

  ghost function After(s: State, acts: seq<Action>): State
    requires IsRun(s, acts)
    decreases acts
  {
    if acts == [] then s else After(Next(s, acts[0]), acts[1..])
  }

  ghost function Listed(s: State): seq<string> {
    Names(ListOf(s.kv))
  }

  lemma RunThenStep(s: State, acts: seq<Action>, a: Action)
    requires IsRun(s, acts) && Enabled(After(s, acts), a)
    ensures IsRun(s, acts + [a]) && After(s, acts + [a]) == Next(After(s, acts), a)
    decreases acts
  {
    if acts == [] {
      assert (acts + [a])[1..] == [];
    } else {
      RunThenStep(Next(s, acts[0]), acts[1..], a);
      assert (acts + [a])[1..] == acts[1..] + [a];
    }
  }

  /** Only the last step of a creation touches the list. */
  lemma OnlyWritesChangeList(kv: Store, call: Call)
    ensures ListOf(Stored(kv, call)) ==
            if call.stage.Read? then call.stage.seen + "," + call.account.name else ListOf(kv)
  {
    KeysApart(call.account.name, call.account.name);
  }

  lemma ListAfterWrite(s: State, t: nat)
    requires Enabled(s, Proceed(t)) && s.calls[t].stage.Read?
    ensures Listed(Next(s, Proceed(t))) == Names(s.calls[t].stage.seen) + Names(s.calls[t].account.name)
  {
    OnlyWritesChangeList(s.kv, s.calls[t]);
    NamesOfAppended(s.calls[t].stage.seen, s.calls[t].account.name);
  }

  lemma ListUnlessWrite(s: State, a: Action)
    requires Enabled(s, a) && (a.Proceed? ==> !s.calls[a.t].stage.Read?)
    ensures Listed(Next(s, a)) == Listed(s)
  {
    if a.Proceed? {
      OnlyWritesChangeList(s.kv, s.calls[a.t]);
    }
  }

  // ---- A creation on its own ----------------------------------------------------------------------

  /** With nothing in between, the steps of a creation do what the handler's method promises. */
  lemma UninterruptedCreation(s: State, account: Account) returns (acts: seq<Action>)
    ensures IsRun(s, acts)
    ensures After(s, acts).kv == Create(s.kv, account.name, account.password, account.role)
    ensures After(s, acts).calls == s.calls + [Call(account, Answered(Creates(s.kv, account.name)))]
  {
    var t := |s.calls|;
    KeysApart(account.name, account.name);
    var s': State;
    acts, s' := Play(s, [], s, Arrive(account));
    acts, s' := Play(s, acts, s', Proceed(t));
    if Creates(s.kv, account.name) {
      acts, s' := Play(s, acts, s', Proceed(t));
      acts, s' := Play(s, acts, s', Proceed(t));
      assert ListOf(s'.kv) == ListOf(s.kv);
      acts, s' := Play(s, acts, s', Proceed(t));
      if !Contains(ListOf(s.kv), account.name) {
        acts, s' := Play(s, acts, s', Proceed(t));
      }
    }
    assert s'.calls == s.calls + [Call(account, Answered(Creates(s.kv, account.name)))];
  }

  /** Appends a step to a run. */
  lemma Play(s: State, acts: seq<Action>, now: State, a: Action) returns (acts': seq<Action>, next: State)
    requires IsRun(s, acts) && After(s, acts) == now && Enabled(now, a)
    ensures acts' == acts + [a] && next == Next(now, a)
    ensures IsRun(s, acts') && After(s, acts') == next
  {
    RunThenStep(s, acts, a);
    acts', next := acts + [a], Next(now, a);
  }

  // ---- Who is listed ------------------------------------------------------------------------------

  /** Every call about to write has read a list without its name. */
  ghost predicate Honest(s: State) {
    forall t :: 0 <= t < |s.calls| && s.calls[t].stage.Read? ==>
      !Contains(s.calls[t].stage.seen, s.calls[t].account.name)
  }

  lemma {:induction false} RunKeepsHonest(s: State, acts: seq<Action>)
    requires Honest(s) && IsRun(s, acts)
    ensures Honest(After(s, acts))
    decreases acts
  {
    if acts != [] {
      RunKeepsHonest(Next(s, acts[0]), acts[1..]);
    }
  }

  /** Exactly when a creation that is being answered with success has its name listed at that moment: the name
      was on the list it read, or it was nowhere in that list and is a proper name. */
  lemma ListedWhenAnsweredIff(s: State, t: nat)
    requires Honest(s) && Enabled(s, Proceed(t)) && Next(s, Proceed(t)).calls[t].stage == Answered(true)
    ensures var name := s.calls[t].account.name;
            name in Listed(Next(s, Proceed(t))) <==>
              if s.calls[t].stage.Read? then ProperName(name) else name in Listed(s)
  {
    var name := s.calls[t].account.name;
    if s.calls[t].stage.Read? {
      ListAfterWrite(s, t);
      if ProperName(name) {
        NamesOfProper(name, 0);
      }
      if name in Names(name) {
        NamesAreProper(name, name);
      }
      if name in Names(s.calls[t].stage.seen) {
        NamesAreProper(s.calls[t].stage.seen, name);
      }
    } else {
      ListUnlessWrite(s, Proceed(t));
    }
  }

  /** The name stays on the list whatever happens. */
  ghost predicate ListedForever(s: State, name: string) {
    forall acts :: IsRun(s, acts) ==> name in Listed(After(s, acts))
  }

  /** What this call is about to write, if it is about to write, has the name on it. */
  ghost predicate WillList(call: Call, name: string) {
    call.stage.Read? ==> name in Names(call.stage.seen) || name in Names(call.account.name)
  }

  /** Exactly when a name is listed for good: it is listed, and no call is about to write a list without it. */
  lemma ListedForeverIff(s: State, name: string)
    ensures ListedForever(s, name) <==>
            name in Listed(s) && forall t :: 0 <= t < |s.calls| ==> WillList(s.calls[t], name)
  {
    if ListedForever(s, name) {
      assert After(s, []) == s;
      forall t | 0 <= t < |s.calls| ensures WillList(s.calls[t], name) {
        if s.calls[t].stage.Read? {
          var acts, s' := Play(s, [], s, Proceed(t));
          ListAfterWrite(s, t);
        }
      }
    }
    if name in Listed(s) && forall t :: 0 <= t < |s.calls| ==> WillList(s.calls[t], name) {
      forall acts | IsRun(s, acts) ensures name in Listed(After(s, acts)) {
        StaysListed(s, acts, name);
      }
    }
  }

  lemma {:induction false} StaysListed(s: State, acts: seq<Action>, name: string)
    requires IsRun(s, acts) && name in Listed(s)
    requires forall t :: 0 <= t < |s.calls| ==> WillList(s.calls[t], name)
    ensures name in Listed(After(s, acts))
    decreases acts
  {
    if acts != [] {
      if acts[0].Proceed? && s.calls[acts[0].t].stage.Read? {
        ListAfterWrite(s, acts[0].t);
      } else {
        ListUnlessWrite(s, acts[0]);
      }
      StaysListed(Next(s, acts[0]), acts[1..], name);
    }
  }

  /** Two overlapping creations of proper new names, both answered with success: the second list written does
      not have the first name. */
  lemma LostUpdate(kv: Store, a: Account, b: Account) returns (acts: seq<Action>)
    requires ProperName(a.name) && ProperName(b.name) && a.name != b.name
    requires Creates(kv, a.name) && !Contains(ListOf(kv), a.name)
    requires Creates(kv, b.name) && !Contains(ListOf(kv), b.name)
    ensures IsRun(State(kv, []), acts)
    ensures var s := After(State(kv, []), acts);
            && s.calls == [Call(a, Answered(true)), Call(b, Answered(true))]
            && UserKey(a.name) in s.kv && a.name !in Listed(s) && b.name in Listed(s)
  {
    var s0 := State(kv, []);
    var s: State;
    acts, s := Play(s0, [], s0, Arrive(a));
    acts, s := UpToReading(s0, acts, s, 0);
    acts, s := Play(s0, acts, s, Arrive(b));
    KeysApart(a.name, b.name);
    KeysApart(b.name, a.name);
    acts, s := UpToReading(s0, acts, s, 1);
    acts, s := Play(s0, acts, s, Proceed(0));
    ListAfterWrite(s, 1);
    acts, s := Play(s0, acts, s, Proceed(1));
    NamesOfProper(b.name, 0);
    if a.name in Names(ListOf(kv)) {
      NamesAreProper(ListOf(kv), a.name);
    }
  }

  /** A call for a new name that does not occur in the list goes on until it has read the list. */
  lemma UpToReading(s: State, acts: seq<Action>, now: State, t: nat) returns (acts': seq<Action>, next: State)
    requires IsRun(s, acts) && After(s, acts) == now && t < |now.calls| && now.calls[t].stage == Arrived
    requires Creates(now.kv, now.calls[t].account.name) && !Contains(ListOf(now.kv), now.calls[t].account.name)
    ensures IsRun(s, acts') && After(s, acts') == next
    ensures var a := now.calls[t].account;
            && next.kv == now.kv[UserKey(a.name) := a.password][RoleKey(a.name) := a.role]
            && next.calls == now.calls[t := Call(a, Read(ListOf(now.kv)))]
  {
    var a := now.calls[t].account;
    KeysApart(a.name, a.name);
    acts', next := Play(s, acts, now, Proceed(t));
    acts', next := Play(s, acts', next, Proceed(t));
    acts', next := Play(s, acts', next, Proceed(t));
    assert ListOf(next.kv) == ListOf(now.kv);
    acts', next := Play(s, acts', next, Proceed(t));
  }

  // ---- Lists that are not disturbed ---------------------------------------------------------------

  /** Whenever a call writes, the list is still the one it has read. */
  ghost predicate Undisturbed(s: State, acts: seq<Action>)
    requires IsRun(s, acts)
    decreases acts
  {
    acts == [] ||
    ((acts[0].Proceed? && s.calls[acts[0].t].stage.Read? ==> s.calls[acts[0].t].stage.seen == ListOf(s.kv))
     && Undisturbed(Next(s, acts[0]), acts[1..]))
  }

  /** The names that the writes of the run append, in order. */
  ghost function Appended(s: State, acts: seq<Action>): seq<string>
    requires IsRun(s, acts)
    decreases acts
  {
    if acts == [] then []
    else
      (if acts[0].Proceed? && s.calls[acts[0].t].stage.Read? then Names(s.calls[acts[0].t].account.name) else [])
      + Appended(Next(s, acts[0]), acts[1..])
  }

  /** Then nothing is lost: the listing is the old one followed by everything appended. */
  lemma {:induction false} UndisturbedListing(s: State, acts: seq<Action>)
    requires IsRun(s, acts) && Undisturbed(s, acts)
    ensures Listed(After(s, acts)) == Listed(s) + Appended(s, acts)
    decreases acts
  {
    if acts != [] {
      var s' := Next(s, acts[0]);
      UndisturbedListing(s', acts[1..]);
      if acts[0].Proceed? && s.calls[acts[0].t].stage.Read? {
        ListAfterWrite(s, acts[0].t);
        Reassociate(Listed(s), Names(s.calls[acts[0].t].account.name), Appended(s', acts[1..]));
      } else {
        ListUnlessWrite(s, acts[0]);
      }
    }
  }

  // ---- Nobody is listed twice ---------------------------------------------------------------------

  /** All requests, those on their way and those that arrive, are for proper names. */
  ghost predicate ProperCalls(s: State) {
    forall t :: 0 <= t < |s.calls| ==> ProperName(s.calls[t].account.name)
  }

  ghost predicate ProperArrivals(acts: seq<Action>) {
    forall k :: 0 <= k < |acts| && acts[k].Arrive? ==> ProperName(acts[k].account.name)
  }

  /** No list in the store or in the hands of a call has a name twice. */
  ghost predicate ListsDistinct(s: State) {
    && NoDuplicates(Listed(s))
    && forall t :: 0 <= t < |s.calls| && s.calls[t].stage.Read? ==> NoDuplicates(Names(s.calls[t].stage.seen))
  }

  /** However proper names are created, nobody is ever listed twice, exactly if that is so now and in every list
      that a call has read and not yet written. */
  lemma DistinctForeverIff(s: State)
    requires Honest(s) && ProperCalls(s)
    ensures (forall acts :: IsRun(s, acts) && ProperArrivals(acts) ==> NoDuplicates(Listed(After(s, acts)))) <==>
            ListsDistinct(s)
  {
    if ListsDistinct(s) {
      forall acts | IsRun(s, acts) && ProperArrivals(acts) ensures NoDuplicates(Listed(After(s, acts))) {
        StaysDistinct(s, acts);
      }
    } else if !NoDuplicates(Listed(s)) {
      assert IsRun(s, []) && ProperArrivals([]) && After(s, []) == s;
    } else {
      var t: nat :| t < |s.calls| && s.calls[t].stage.Read? && !NoDuplicates(Names(s.calls[t].stage.seen));
      var acts, s' := Play(s, [], s, Proceed(t));
      ListAfterWrite(s, t);
      DuplicatesStay(Names(s.calls[t].stage.seen), Names(s.calls[t].account.name));
      assert ProperArrivals(acts);
    }
  }

  lemma {:induction false} StaysDistinct(s: State, acts: seq<Action>)
    requires Honest(s) && ProperCalls(s) && ListsDistinct(s) && IsRun(s, acts) && ProperArrivals(acts)
    ensures NoDuplicates(Listed(After(s, acts)))
    decreases acts
  {
    if acts != [] {
      StepKeepsDistinct(s, acts[0]);
      assert forall k :: 0 <= k < |acts| - 1 ==> acts[1..][k] == acts[k + 1];
      StaysDistinct(Next(s, acts[0]), acts[1..]);
    }
  }

  lemma StepKeepsDistinct(s: State, a: Action)
    requires Honest(s) && ProperCalls(s) && ListsDistinct(s) && Enabled(s, a)
    requires a.Arrive? ==> ProperName(a.account.name)
    ensures Honest(Next(s, a)) && ProperCalls(Next(s, a)) && ListsDistinct(Next(s, a))
  {
    if a.Proceed? && s.calls[a.t].stage.Read? {
      var name, seen := s.calls[a.t].account.name, s.calls[a.t].stage.seen;
      ListAfterWrite(s, a.t);
      NamesOfProper(name, 0);
      DistinctConcatenation(Names(seen), [name]);
      if name in Names(seen) {
        NamesAreProper(seen, name);
      }
    } else {
      ListUnlessWrite(s, a);
    }
  }

  /** So on a store that starts without duplicates and is given proper names, in every interleaving. */
  lemma NobodyIsListedTwice(kv: Store, acts: seq<Action>)
    requires NoDuplicates(Names(ListOf(kv))) && IsRun(State(kv, []), acts) && ProperArrivals(acts)
    ensures NoDuplicates(Listed(After(State(kv, []), acts)))
  {
    StaysDistinct(State(kv, []), acts);
  }

  // ---- Whose password it is -----------------------------------------------------------------------

  ghost predicate PasswordForever(s: State, name: string)
    requires UserKey(name) in s.kv
  {
    forall acts :: IsRun(s, acts) ==> UserKey(name) in After(s, acts).kv
                                      && After(s, acts).kv[UserKey(name)] == s.kv[UserKey(name)]
  }

  /** The call has found the account missing and will store another password than `password`. */
  ghost predicate WillOverwrite(call: Call, name: string, password: string) {
    call.stage.Vacant? && call.account.name == name && call.account.password != password
  }

  /** Existing accounts are refused, yet an account keeps its password for good exactly if no other creation of
      the same name has already passed that check with a different password in hand. */
  lemma PasswordForeverIff(s: State, name: string)
    requires UserKey(name) in s.kv
    ensures PasswordForever(s, name) <==>
            forall t :: 0 <= t < |s.calls| ==> !WillOverwrite(s.calls[t], name, s.kv[UserKey(name)])
  {
    if PasswordForever(s, name) {
      forall t | 0 <= t < |s.calls| ensures !WillOverwrite(s.calls[t], name, s.kv[UserKey(name)]) {
        if WillOverwrite(s.calls[t], name, s.kv[UserKey(name)]) {
          var acts, s' := Play(s, [], s, Proceed(t));
        }
      }
    }
    if forall t :: 0 <= t < |s.calls| ==> !WillOverwrite(s.calls[t], name, s.kv[UserKey(name)]) {
      forall acts | IsRun(s, acts)
        ensures UserKey(name) in After(s, acts).kv && After(s, acts).kv[UserKey(name)] == s.kv[UserKey(name)]
      {
        PasswordStays(s, acts, name);
      }
    }
  }

  lemma {:induction false} PasswordStays(s: State, acts: seq<Action>, name: string)
    requires IsRun(s, acts) && UserKey(name) in s.kv
    requires forall t :: 0 <= t < |s.calls| ==> !WillOverwrite(s.calls[t], name, s.kv[UserKey(name)])
    ensures UserKey(name) in After(s, acts).kv && After(s, acts).kv[UserKey(name)] == s.kv[UserKey(name)]
    decreases acts
  {
    if acts != [] {
      if acts[0].Proceed? {
        KeysApart(name, s.calls[acts[0].t].account.name);
        KeysApart(s.calls[acts[0].t].account.name, name);
      }
      PasswordStays(Next(s, acts[0]), acts[1..], name);
    }
  }
}
