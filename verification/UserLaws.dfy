/** What each account command does, and to whom, in terms of the flags alone. */
module UserLaws {
  import opened CStrings
  import opened Users

  /** The first account of that name, in any case, that is not deleted. */
  ghost predicate IsTarget(us: seq<Account>, name: CString, i: nat) {
    && i < |us| && !us[i].deleted && AsciiFold(us[i].name) == AsciiFold(name)
    && forall j :: 0 <= j < i ==> us[j].deleted || AsciiFold(us[j].name) != AsciiFold(name)
  }

  /** A server admin and nothing more. */
  predicate MereAdmin(who: Account) {
    Admin in who.flags && Manager !in who.flags && Owner !in who.flags
  }

  /** Who may give flag f to, or take it from, an account: nobody for owner, and only owners for user manager. */
  predicate MayGovern(who: Account, a: Account, f: Flag) {
    match f
    case Owner => false
    case Manager => Owner in who.flags
    case Block => Owner in who.flags || Manager in who.flags
    case Admin => Owner in who.flags || Manager in who.flags
    case _ => Owner in who.flags || Manager in who.flags
              || (Admin in who.flags && AsciiFold(a.server) == AsciiFold(who.server))
  }

  /** Accounts on this server that are neither deleted nor owners and have the flag. */
  ghost function FlagHolders(us: seq<Account>, f: Flag, server: CString): set<nat> {
    set i | 0 <= i < |us| && !us[i].deleted && f in us[i].flags && Owner !in us[i].flags
            && AsciiFold(us[i].server) == AsciiFold(server)
  }

  lemma {:induction false} HoldersCounted(us: seq<Account>, f: Flag, server: CString)
    ensures Count(us, f, server) == |FlagHolders(us, f, server)|
  {
    if us != [] {
      var n := |us| - 1;
      var p, h := us[..n], FlagHolders(us, f, server);
      HoldersCounted(p, f, server);
      hide AsciiFold;
      assert FlagHolders(p, f, server) == h - {n};
    }
  }

  /** A server has room under a limit; no limit is set when it is not positive. */
  ghost predicate BelowLimit(us: seq<Account>, a: Account, f: Flag, l: Limits) {
    && (f == Block && l.block >= 1 ==> |FlagHolders(us, Block, a.server)| < l.block)
    && (f == Fix && l.fix >= 1 ==> |FlagHolders(us, Fix, a.server)| < l.fix)
  }

  lemma TargetFound(us: seq<Account>, name: CString, i: nat)
    requires IsTarget(us, name, i)
    ensures Find(us, name) == i
  {
    hide AsciiFold;
    var k := Find(us, name);
    assert forall j :: 0 <= j < i ==> !Live(us[j], name);
    assert Live(us[i], name);
  }

  lemma NoTarget(us: seq<Account>, name: CString)
    requires forall i: nat :: !IsTarget(us, name, i)
    ensures Find(us, name) == |us|
  {
    hide AsciiFold;
    var k := Find(us, name);
    assert k < |us| ==> IsTarget(us, name, k);
  }

  lemma GovernExact(who: Account, a: Account, f: Flag)
    ensures MayManage(who) && MayTouch(who, a, f) <==> MayGovern(who, a, f)
  {
    hide AsciiFold;
  }

  /** No command does anything to an account that is not there. */
  lemma NobodyThere(us: seq<Account>, c: Command, l: Limits)
    requires (forall i: nat :: !IsTarget(us, c.name, i)) && !c.AddUser?
    ensures Step(us, c, l) == us
  {
    NoTarget(us, c.name);
  }

  /** ADDFLAG gives exactly that flag to exactly that account, if the command is allowed and there is room. */
  lemma AddFlagExact(us: seq<Account>, who: Account, name: CString, f: Flag, l: Limits, i: nat)
    requires IsTarget(us, name, i)
    ensures var r := Step(us, AddFlag(who, name, f), l);
            && |r| == |us| && (forall j :: 0 <= j < |us| && j != i ==> r[j] == us[j])
            && r[i] == us[i].(flags := r[i].flags)
            && forall g :: g in r[i].flags <==>
                 || g in us[i].flags
                 || (g == f && MayGovern(who, us[i], f) && Owner !in us[i].flags && BelowLimit(us, us[i], f, l))
  {
    TargetFound(us, name, i);
    GovernExact(who, us[i], f);
    HoldersCounted(us, Block, us[i].server);
    HoldersCounted(us, Fix, us[i].server);
    hide MayTouch, MayManage, MayGovern, Count, Find, AsciiFold;
  }

  /** DELFLAG takes exactly that flag from exactly that account, if the command is allowed. */
  lemma DelFlagExact(us: seq<Account>, who: Account, name: CString, f: Flag, l: Limits, i: nat)
    requires IsTarget(us, name, i)
    ensures var r := Step(us, DelFlag(who, name, f), l);
            && |r| == |us| && (forall j :: 0 <= j < |us| && j != i ==> r[j] == us[j])
            && r[i] == us[i].(flags := r[i].flags)
            && (forall g :: g in r[i].flags <==> g in us[i].flags && !(g == f && MayGovern(who, us[i], f)))
  {
    TargetFound(us, name, i);
    GovernExact(who, us[i], f);
    hide MayTouch, MayManage, MayGovern, Find, AsciiFold;
  }

  /** DELUSER deletes exactly that account: never an owner, a user manager only for an owner. */
  lemma DelUserExact(us: seq<Account>, who: Account, name: CString, l: Limits, i: nat)
    requires IsTarget(us, name, i)
    ensures var r, a := Step(us, DelUser(who, name), l), us[i];
            && |r| == |us| && (forall j :: 0 <= j < |us| && j != i ==> r[j] == us[j])
            && r[i] == a.(deleted := r[i].deleted)
            && (r[i].deleted <==>
                  && Owner !in a.flags && (Manager in a.flags ==> Owner in who.flags)
                  && (|| Owner in who.flags || Manager in who.flags
                      || (Admin in who.flags && AsciiFold(a.server) == AsciiFold(who.server))))
  {
    TargetFound(us, name, i);
    hide Find, AsciiFold;
  }

  lemma {:induction false} NextIdNext(us: seq<Account>)
    ensures NextId(us) == 1 || exists i :: 0 <= i < |us| && us[i].id == NextId(us) - 1
  {
    if us != [] {
      var p := us[..|us| - 1];
      NextIdNext(p);
      assert forall i :: 0 <= i < |p| ==> p[i] == us[i];
    }
  }

  /** ADDUSER puts a new account in front, without flags; a mere admin's is on his server. */
  lemma AddUserExact(us: seq<Account>, who: Account, name: CString, hostmask: CString, l: Limits)
    ensures var r := Step(us, AddUser(who, name, hostmask), l);
            if (Owner in who.flags || Manager in who.flags || Admin in who.flags) && forall i: nat :: !IsTarget(us, name, i)
            then && r != [] && r[1..] == us && r[0].flags == {} && !r[0].deleted
                 && r[0].name == (if |name| > 9 then name[..9] else name)
                 && r[0].hosts == (if |hostmask| > 256 then hostmask[..256] else hostmask)
                 && r[0].server == (if MereAdmin(who) then who.server else [])
                 && (forall i :: 0 <= i < |us| ==> r[0].id > us[i].id)
                 && (r[0].id == 1 || exists i :: 0 <= i < |us| && us[i].id == r[0].id - 1)
            else r == us
  {
    if forall i: nat :: !IsTarget(us, name, i) {
      NoTarget(us, name);
      NextIdAbove(us);
      NextIdNext(us);
    } else {
      var i: nat :| IsTarget(us, name, i);
      TargetFound(us, name, i);
    }
    hide Find, AsciiFold, NextId, IsTarget;
  }
}
