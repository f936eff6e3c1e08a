/** Chanfix accounts: who may change whose flags, and what every run of the user commands keeps. */
module Users {
  import opened CStrings

  const NAME_LENGTH: nat := 9     // OCF_USER_NAME_LENGTH
  const HOSTS_LENGTH: nat := 256  // OCF_USER_HOSTS_LENGTH

  datatype Flag = Owner | Block | Manager | Fix | Channel | Admin

  datatype Account = Account(id: nat, name: CString, flags: set<Flag>, hosts: CString, server: CString, deleted: bool)

  /** ocf_user_has_flag: an owner has every flag. */
  predicate Has(a: Account, f: Flag) {
    Owner in a.flags || f in a.flags
  }

  predicate SameServer(a: Account, server: CString) {
    AsciiFold(a.server) == AsciiFold(server)
  }

  predicate Live(a: Account, name: CString) {
    AsciiFold(a.name) == AsciiFold(name) && !a.deleted
  }

  /** ocf_get_user: the first live account of that name, or |us|. */
  method GetUser(us: seq<Account>, name: CString) returns (i: nat)
    ensures i == Find(us, name)
  {
    i := 0;
    while i < |us| && !Live(us[i], name)
      invariant i <= |us| && forall j :: 0 <= j < i ==> !Live(us[j], name)
    {
      i := i + 1;
    }
  }

  ghost function Find(us: seq<Account>, name: CString): (i: nat)
    ensures i <= |us| && (i < |us| ==> Live(us[i], name)) && forall j :: 0 <= j < i ==> !Live(us[j], name)
  {
    if us == [] || Live(us[0], name) then 0 else 1 + Find(us[1..], name)
  }

  /** What get_num_flags_of_server counts; owners are left out. */
  predicate Counted(a: Account, f: Flag, server: CString) {
    !a.deleted && f in a.flags && Owner !in a.flags && SameServer(a, server)
  }

  ghost function Count(us: seq<Account>, f: Flag, server: CString): nat {
    if us == [] then 0
    else Count(us[..|us| - 1], f, server) + if Counted(us[|us| - 1], f, server) then 1 else 0
  }

  /** get_num_flags_of_server */
  method CountFlags(us: seq<Account>, f: Flag, server: CString) returns (n: nat)
    ensures n == Count(us, f, server)
  {
    n := 0;
    for i := 0 to |us|
      invariant n == Count(us[..i], f, server)
    {
      assert us[..i + 1][..i] == us[..i];
      if !us[i].deleted && Has(us[i], f) && !Has(us[i], Owner) && SameServer(us[i], server) { n := n + 1; }
    }
    assert us[..|us|] == us;
  }

  // ---------------------------------------------------------------- the commands on values

  /** The limits on f and b flags for each server; not positive means no limit. */
  datatype Limits = Limits(fix: int, block: int)

  datatype Command =
    | AddFlag(who: Account, name: CString, flag: Flag)
    | DelFlag(who: Account, name: CString, flag: Flag)
    | AddUser(who: Account, name: CString, hostmask: CString)
    | DelUser(who: Account, name: CString)

  /** The flags that the command table asks for. */
  predicate MayManage(who: Account) {
    Has(who, Manager) || Has(who, Admin)
  }

  /** A server admin who is not a user manager as well. */
  predicate OnlyAdmin(who: Account) {
    Has(who, Admin) && !Has(who, Manager)
  }

  /** The checks that ADDFLAG and DELFLAG share. */
  predicate MayTouch(who: Account, target: Account, f: Flag) {
    && f != Owner
    && (f == Manager ==> Has(who, Owner))
    && (OnlyAdmin(who) ==> SameServer(target, who.server) && f != Block && f != Admin)
  }

  ghost predicate RoomFor(us: seq<Account>, target: Account, f: Flag, l: Limits) {
    && (f == Block && l.block > 0 ==> Count(us, Block, target.server) < l.block)
    && (f == Fix && l.fix > 0 ==> Count(us, Fix, target.server) < l.fix)
  }

  predicate MayDelete(who: Account, target: Account) {
    && !Has(target, Owner)
    && (Has(target, Manager) ==> Has(who, Owner))
    && (OnlyAdmin(who) ==> SameServer(target, who.server))
  }

  function NextId(us: seq<Account>): nat {
    if us == [] then 1
    else var m := NextId(us[..|us| - 1]); if us[|us| - 1].id >= m then us[|us| - 1].id + 1 else m
  }

  function NewAccount(us: seq<Account>, name: CString, hostmask: CString, who: Account): Account {
    Account(NextId(us), Cut(name, NAME_LENGTH), {}, Cut(hostmask, HOSTS_LENGTH), if OnlyAdmin(who) then who.server else [], false)
  }

  ghost function Step(us: seq<Account>, c: Command, l: Limits): seq<Account> {
    var i := Find(us, c.name);
    if !MayManage(c.who) then us
    else match c
      case AddFlag(who, name, f) =>
        if i < |us| && MayTouch(who, us[i], f) && !Has(us[i], f) && RoomFor(us, us[i], f, l)
        then us[i := us[i].(flags := us[i].flags + {f})] else us
      case DelFlag(who, name, f) =>
        if i < |us| && MayTouch(who, us[i], f) && Has(us[i], f)
        then us[i := us[i].(flags := us[i].flags - {f})] else us
      case AddUser(who, name, hostmask) => if i < |us| then us else [NewAccount(us, name, hostmask, who)] + us
      case DelUser(who, name) =>
        if i < |us| && MayDelete(who, us[i]) then us[i := us[i].(deleted := true)] else us
  }

  /** The list of accounts, newest first. */
  class Store {
    var accounts: seq<Account>
    const limits: Limits

    constructor (accounts: seq<Account>, limits: Limits)
      ensures this.accounts == accounts && this.limits == limits
    {
      this.accounts, this.limits := accounts, limits;
    }

    /** process_cmd_addflag, behind the flag check of the command table. */
    method AddFlag(who: Account, name: CString, f: Flag)
      modifies this
      ensures accounts == Step(old(accounts), Command.AddFlag(who, name, f), limits)
    {
      if !Has(who, Manager) && !Has(who, Admin) { return; }
      var i := GetUser(accounts, name);
      if i == |accounts| { return; }
      var ou := accounts[i];
      if f == Owner { return; }
      if f == Manager && !Has(who, Owner) { return; }
      if Has(who, Admin) && !Has(who, Manager) {
        if !SameServer(ou, who.server) { return; }
        if f == Block { return; }
        if f == Admin { return; }
      }
      if Has(ou, f) { return; }
      if f == Block && limits.block > 0 {
        var n := CountFlags(accounts, Block, ou.server);
        if n >= limits.block { return; }
      }
      if f == Fix && limits.fix > 0 {
        var n := CountFlags(accounts, Fix, ou.server);
        if n >= limits.fix { return; }
      }
      accounts := accounts[i := ou.(flags := ou.flags + {f})];
    }

    /** process_cmd_delflag */
    method DelFlag(who: Account, name: CString, f: Flag)
      modifies this
      ensures accounts == Step(old(accounts), Command.DelFlag(who, name, f), limits)
    {
      if !Has(who, Manager) && !Has(who, Admin) { return; }
      var i := GetUser(accounts, name);
      if i == |accounts| { return; }
      var ou := accounts[i];
      if f == Owner { return; }
      if f == Manager && !Has(who, Owner) { return; }
      if Has(who, Admin) && !Has(who, Manager) {
        if !SameServer(ou, who.server) { return; }
        if f == Block { return; }
        if f == Admin { return; }
      }
      if !Has(ou, f) { return; }
      accounts := accounts[i := ou.(flags := ou.flags - {f})];
    }

    /** process_cmd_adduser with ocf_add_user; the new account goes to the head of the list. */
    method AddUser(who: Account, name: CString, hostmask: CString)
      modifies this
      ensures accounts == Step(old(accounts), Command.AddUser(who, name, hostmask), limits)
    {
      if !Has(who, Manager) && !Has(who, Admin) { return; }
      var i := GetUser(accounts, name);
      if i < |accounts| { return; }
      var ou := Account(NextId(accounts), Cut(name, NAME_LENGTH), {}, Cut(hostmask, HOSTS_LENGTH), [], false);
      if Has(who, Admin) && !Has(who, Manager) { ou := ou.(server := who.server); }
      accounts := [ou] + accounts;
    }

    /** process_cmd_deluser */
    method DelUser(who: Account, name: CString)
      modifies this
      ensures accounts == Step(old(accounts), Command.DelUser(who, name), limits)
    {
      if !Has(who, Manager) && !Has(who, Admin) { return; }
      var i := GetUser(accounts, name);
      if i == |accounts| { return; }
      var ou := accounts[i];
      if Has(ou, Owner) { return; }
      if Has(ou, Manager) && !Has(who, Owner) { return; }
      if Has(who, Admin) && !Has(who, Manager) && !SameServer(ou, who.server) { return; }
      accounts := accounts[i := ou.(deleted := true)];
    }
  }

  // ---------------------------------------------------------------- every run

  ghost function Run(us: seq<Account>, cs: seq<Command>, l: Limits): seq<Account> {
    if cs == [] then us else Step(Run(us, cs[..|cs| - 1], l), cs[|cs| - 1], l)
  }

  /** The live accounts that hold a flag, by id. */
  ghost function Holders(us: seq<Account>, f: Flag): set<nat> {
    set i | 0 <= i < |us| && !us[i].deleted && f in us[i].flags :: us[i].id
  }

  ghost predicate UniqueIds(us: seq<Account>) {
    forall i, j :: 0 <= i < j < |us| ==> us[i].id != us[j].id
  }

  lemma {:induction false} NextIdAbove(us: seq<Account>)
    ensures forall i :: 0 <= i < |us| ==> us[i].id < NextId(us)
  {
    if us != [] {
      NextIdAbove(us[..|us| - 1]);
      assert forall i :: 0 <= i < |us| - 1 ==> us[..|us| - 1][i] == us[i];
    }
  }

  /** A step leaves the list alone, changes one live account or adds one without flags. */
  lemma StepShape(us: seq<Account>, c: Command, l: Limits)
    ensures var r, i := Step(us, c, l), Find(us, c.name);
            || r == us
            || (c.AddUser? && r == [NewAccount(us, c.name, c.hostmask, c.who)] + us)
            || (i < |us| == |r| && !us[i].deleted && r == us[i := r[i]] && ChangeAllowed(us, us[i], r[i], c, l))
  {
    var i := Find(us, c.name);
    var r := Step(us, c, l);
    if r != us && !c.AddUser? {
      assert r == us[i := r[i]] && ChangeAllowed(us, us[i], r[i], c, l);
    }
  }

  /** The ways in which one command may change one account. */
  ghost predicate ChangeAllowed(us: seq<Account>, a: Account, b: Account, c: Command, l: Limits) {
    match c
    case AddFlag(who, _, f) =>
      MayTouch(who, a, f) && f !in a.flags && RoomFor(us, a, f, l) && b == a.(flags := a.flags + {f})
    case DelFlag(who, _, f) => MayTouch(who, a, f) && b == a.(flags := a.flags - {f})
    case AddUser(_, _, _) => false
    case DelUser(who, _) => MayDelete(who, a) && b == a.(deleted := true)
  }

  lemma StepUnique(us: seq<Account>, c: Command, l: Limits)
    requires UniqueIds(us)
    ensures UniqueIds(Step(us, c, l))
  {
    NextIdAbove(us);
    StepShape(us, c, l);
    hide Step, NextId, MayTouch, MayDelete, RoomFor;
  }

  lemma HoldersSame(us: seq<Account>, r: seq<Account>, i: nat, f: Flag)
    requires i < |us| && |r| == |us| && r == us[i := r[i]] && r[i].id == us[i].id
    requires !us[i].deleted && f in us[i].flags <==> !r[i].deleted && f in r[i].flags
    ensures Holders(r, f) == Holders(us, f)
  {
    assert forall j :: 0 <= j < |us| ==> (!us[j].deleted && f in us[j].flags <==> !r[j].deleted && f in r[j].flags);
    assert forall j :: 0 <= j < |us| ==> us[j].id == r[j].id;
    forall x ensures x in Holders(r, f) <==> x in Holders(us, f) {
      if x in Holders(us, f) {
        var j :| 0 <= j < |us| && !us[j].deleted && f in us[j].flags && us[j].id == x;
        assert r[j].id == x;
      }
      if x in Holders(r, f) {
        var j :| 0 <= j < |r| && !r[j].deleted && f in r[j].flags && r[j].id == x;
        assert us[j].id == x;
      }
    }
  }

  lemma HoldersNew(us: seq<Account>, a: Account, f: Flag)
    requires a.flags == {}
    ensures Holders([a] + us, f) == Holders(us, f)
  {
    var r := [a] + us;
    assert forall j :: 0 <= j < |us| ==> r[j + 1] == us[j];
    forall x ensures x in Holders(r, f) <==> x in Holders(us, f) {
      if x in Holders(us, f) {
        var j :| 0 <= j < |us| && !us[j].deleted && f in us[j].flags && us[j].id == x;
        assert r[j + 1].id == x;
      }
    }
  }

  /** One command never changes who is an owner, nor, unless it is an owner's, who is a user manager. */
  lemma StepHolders(us: seq<Account>, c: Command, l: Limits, f: Flag)
    requires f == Owner || (f == Manager && !Has(c.who, Owner))
    ensures Holders(Step(us, c, l), f) == Holders(us, f)
  {
    StepShape(us, c, l);
    var r, i := Step(us, c, l), Find(us, c.name);
    if r == us {
    } else if c.AddUser? {
      HoldersNew(us, NewAccount(us, c.name, c.hostmask, c.who), f);
    } else {
      hide Step, Holders;
      HoldersSame(us, r, i, f);
    }
  }

  /** Over every run the owners are the same accounts. */
  lemma {:induction false} OwnersStay(us: seq<Account>, cs: seq<Command>, l: Limits)
    ensures Holders(Run(us, cs, l), Owner) == Holders(us, Owner)
  {
    hide Holders, Step;
    if cs != [] {
      var p, c := cs[..|cs| - 1], cs[|cs| - 1];
      OwnersStay(us, p, l);
      StepHolders(Run(us, p, l), c, l, Owner);
    }
  }

  /** Over every run without an owner's command the user managers are the same accounts. */
  lemma {:induction false} ManagersStay(us: seq<Account>, cs: seq<Command>, l: Limits)
    requires forall i :: 0 <= i < |cs| ==> !Has(cs[i].who, Owner)
    ensures Holders(Run(us, cs, l), Manager) == Holders(us, Manager)
  {
    hide Holders, Step, Has;
    if cs != [] {
      var p, c := cs[..|cs| - 1], cs[|cs| - 1];
      ManagersStay(us, p, l);
      assert !Has(c.who, Owner);
      StepHolders(Run(us, p, l), c, l, Manager);
    }
  }

  // ---------------------------------------------------------------- the flags of each server

  lemma {:induction false} CountUpdate(us: seq<Account>, i: nat, a: Account, f: Flag, server: CString)
    requires i < |us|
    ensures Count(us[i := a], f, server) == Count(us, f, server)
            - (if Counted(us[i], f, server) then 1 else 0) + if Counted(a, f, server) then 1 else 0
  {
    var n := |us| - 1;
    hide Counted;
    if i == n {
      assert us[i := a][..n] == us[..n];
    } else {
      assert us[i := a][..n] == us[..n][i := a];
      CountUpdate(us[..n], i, a, f, server);
    }
  }

  lemma {:induction false} CountNew(us: seq<Account>, a: Account, f: Flag, server: CString)
    requires a.flags == {}
    ensures Count([a] + us, f, server) == Count(us, f, server)
  {
    var r := [a] + us;
    if us == [] {
      assert r == [a] && r[..0] == [];
    } else {
      CountNew(us[..|us| - 1], a, f, server);
      assert r[..|r| - 1] == [a] + us[..|us| - 1];
    }
  }

  lemma {:induction false} CountSame(us: seq<Account>, f: Flag, s: CString, t: CString)
    requires AsciiFold(s) == AsciiFold(t)
    ensures Count(us, f, s) == Count(us, f, t)
  {
    if us != [] { CountSame(us[..|us| - 1], f, s, t); }
  }

  /** The limit on a flag that has one. */
  function LimitOf(l: Limits, f: Flag): int {
    match f case Fix => l.fix case Block => l.block case _ => 0
  }

  /** A limited flag only spreads on a server that is below its limit. */
  lemma StepCount(us: seq<Account>, c: Command, l: Limits, f: Flag, server: CString)
    requires LimitOf(l, f) > 0
    ensures Count(Step(us, c, l), f, server) <= Count(us, f, server) || Count(Step(us, c, l), f, server) <= LimitOf(l, f)
  {
    StepShape(us, c, l);
    var r, i := Step(us, c, l), Find(us, c.name);
    if r == us {
    } else if c.AddUser? {
      hide Step, Count;
      CountNew(us, NewAccount(us, c.name, c.hostmask, c.who), f, server);
    } else {
      hide Step, Count, MayTouch, MayDelete, AsciiFold;
      var a := r[i];
      assert r == us[i := a];
      CountUpdate(us, i, a, f, server);
      if Counted(a, f, server) && !Counted(us[i], f, server) {
        assert c.AddFlag? && c.flag == f;
        CountSame(us, f, us[i].server, server);
      }
    }
  }

  /** Over every run, a server once within its limit of f or b flags never gets above it. */
  lemma {:induction false} LimitKept(us: seq<Account>, cs: seq<Command>, l: Limits, f: Flag, server: CString)
    requires LimitOf(l, f) > 0 && Count(us, f, server) <= LimitOf(l, f)
    ensures Count(Run(us, cs, l), f, server) <= LimitOf(l, f)
  {
    hide Count, Step;
    if cs != [] {
      LimitKept(us, cs[..|cs| - 1], l, f, server);
      StepCount(Run(us, cs[..|cs| - 1], l), cs[|cs| - 1], l, f, server);
    }
  }

  // ---------------------------------------------------------------- names

  ghost predicate UniqueNames(us: seq<Account>) {
    forall i, j :: 0 <= i < j < |us| && !us[i].deleted && !us[j].deleted ==> AsciiFold(us[i].name) != AsciiFold(us[j].name)
  }

  /** A new name is cut after the check: names stay unique exactly when the cut name is free as well. */
  lemma NewNameUnique(us: seq<Account>, c: Command, l: Limits)
    requires UniqueNames(us) && c.AddUser? && MayManage(c.who) && Find(us, c.name) == |us|
    ensures UniqueNames(Step(us, c, l)) <==> Find(us, Cut(c.name, NAME_LENGTH)) == |us|
  {
    hide Step, Cut, Find, AsciiFold, NextId;
    StepAdds(us, c, l);
    HeadName(us, NewAccount(us, c.name, c.hostmask, c.who));
  }

  lemma StepAdds(us: seq<Account>, c: Command, l: Limits)
    requires c.AddUser? && MayManage(c.who) && Find(us, c.name) == |us|
    ensures Step(us, c, l) == [NewAccount(us, c.name, c.hostmask, c.who)] + us
  {
    hide Find, NewAccount;
  }

  lemma HeadName(us: seq<Account>, n: Account)
    requires UniqueNames(us) && !n.deleted
    ensures UniqueNames([n] + us) <==> Find(us, n.name) == |us|
  {
    if Find(us, n.name) < |us| { NameTaken(us, n, Find(us, n.name)); } else { FreeName(us, n); }
  }

  lemma NameTaken(us: seq<Account>, n: Account, i: nat)
    requires i < |us| && Live(us[i], n.name) && !n.deleted
    ensures !UniqueNames([n] + us)
  {
    hide AsciiFold;
    var r := [n] + us;
    assert r[0] == n && r[i + 1] == us[i];
    assert AsciiFold(r[0].name) == AsciiFold(r[i + 1].name);
  }

  lemma FreeName(us: seq<Account>, n: Account)
    requires UniqueNames(us) && forall j :: 0 <= j < |us| ==> !Live(us[j], n.name)
    ensures UniqueNames([n] + us)
  {
    hide AsciiFold;
    var r := [n] + us;
    forall k, j | 0 <= k < j < |r| && !r[k].deleted && !r[j].deleted
      ensures AsciiFold(r[k].name) != AsciiFold(r[j].name)
    {
      assert r[j] == us[j - 1] && !Live(us[j - 1], n.name);
    }
  }

  /** The command adds no account, or one whose name, as cut, is free. */
  ghost predicate NameFree(us: seq<Account>, c: Command) {
    c.AddUser? && MayManage(c.who) && Find(us, c.name) == |us| ==> Find(us, Cut(c.name, NAME_LENGTH)) == |us|
  }

  lemma StepNames(us: seq<Account>, c: Command, l: Limits)
    requires UniqueNames(us)
    ensures UniqueNames(Step(us, c, l)) <==> NameFree(us, c)
  {
    var r, i := Step(us, c, l), Find(us, c.name);
    if c.AddUser? && MayManage(c.who) && i == |us| {
      NewNameUnique(us, c, l);
    } else if r != us {
      StepShape(us, c, l);
      hide Step, Find, AsciiFold, MayTouch, MayDelete, RoomFor;
      SameNames(us, r, i);
    }
  }

  lemma SameNames(us: seq<Account>, r: seq<Account>, i: nat)
    requires UniqueNames(us) && i < |us| == |r| && r == us[i := r[i]] && r[i].name == us[i].name && !us[i].deleted
    ensures UniqueNames(r)
  {
    hide AsciiFold;
  }

  /** Every new name is free in the form it is stored in. */
  ghost predicate NamesFree(us: seq<Account>, cs: seq<Command>, l: Limits) {
    forall k: nat :: k < |cs| ==> NameFree(Run(us, cs[..k], l), cs[k])
  }

  /** Over every run: live names stay unique if and only if every new name is free as it is stored. */
  lemma RunNames(us: seq<Account>, cs: seq<Command>, l: Limits)
    requires UniqueNames(us)
    ensures (forall k: nat :: k <= |cs| ==> UniqueNames(Run(us, cs[..k], l))) <==> NamesFree(us, cs, l)
  {
    hide UniqueNames, NameFree, Step;
    if NamesFree(us, cs, l) {
      forall k: nat | k <= |cs| ensures UniqueNames(Run(us, cs[..k], l)) { FreeNamesUnique(us, cs, l, k); }
    } else {
      var k: nat :| k < |cs| && !NameFree(Run(us, cs[..k], l), cs[k]);
      RunNext(us, cs, l, k);
      if UniqueNames(Run(us, cs[..k], l)) { StepNames(Run(us, cs[..k], l), cs[k], l); }
    }
  }

  lemma RunNext(us: seq<Account>, cs: seq<Command>, l: Limits, k: nat)
    requires k < |cs|
    ensures Run(us, cs[..k + 1], l) == Step(Run(us, cs[..k], l), cs[k], l)
  {
    hide Step;
    assert cs[..k + 1][..k] == cs[..k];
  }

  lemma {:induction false} FreeNamesUnique(us: seq<Account>, cs: seq<Command>, l: Limits, k: nat)
    requires UniqueNames(us) && k <= |cs| && NamesFree(us, cs, l)
    ensures UniqueNames(Run(us, cs[..k], l))
  {
    hide UniqueNames, NameFree, Step;
    if k > 0 {
      FreeNamesUnique(us, cs, l, k - 1);
      RunNext(us, cs, l, k - 1);
      StepNames(Run(us, cs[..k - 1], l), cs[k - 1], l);
    }
  }

  /** A new name that is too long is cut after the check, so it can double the name of a live account. */
  lemma LongNameDoubles(who: Account, a: Account, x: byte)
    requires MayManage(who) && |a.name| == NAME_LENGTH && !a.deleted && x != 0
    ensures !UniqueNames(Step([a], AddUser(who, a.name + [x], []), Limits(0, 0)))
  {
    var name: CString := a.name + [x];
    assert |AsciiFold(a.name)| != |AsciiFold(name)|;
    var us := [a];
    assert Find(us, name) == 1;
    var n := NewAccount(us, name, [], who);
    assert n.name == a.name;
    var r := [n] + us;
    assert Step(us, AddUser(who, name, []), Limits(0, 0)) == r;
    assert r[0] == n && r[1] == a;
  }
}
