/** The periodic gathering of scores, a few hash buckets at a time. */
module Gather {
  import opened CStrings
  import opened DbModel
  import opened Database
  import opened GatherPoints

  const STATIC_USERHOSTS: nat := 1024     // OCF_NUM_STATIC_USERHOSTS
  const CHANNELS_PER_RUN: nat := 1000     // OCF_CHANNELS_PER_RUN
  const MINCLIENTS: nat := 4              // OCF_MINCLIENTS
  const TILDE: byte := 0x7e

  /** A channel on the network; its ops are among its users. */
  datatype Live = Live(name: CString, users: nat, chanops: seq<UserHost>)

  /** What an op must have beside the op status. */
  datatype Status = Status(ident: bool, reverse: bool)

  /** No status ever carries the reverse bit, so asking for it leaves nobody. */
  predicate Qualifies(u: UserHost, need: Status) {
    !need.reverse && (need.ident ==> u.user == [] || u.user[0] != TILDE)
  }

  ghost predicate KeyIn(us: seq<UserHost>, k: Key) {
    exists i :: 0 <= i < |us| && KeyOfUser(us[i]) == k
  }

  ghost function Appended(us: seq<UserHost>, u: UserHost): seq<UserHost> {
    if KeyIn(us, KeyOfUser(u)) then us else us + [u]
  }

  /** The qualifying ops, one for each user@host. */
  ghost function Firsts(cs: seq<UserHost>, need: Status): seq<UserHost> {
    if cs == [] then []
    else
      var p, c := Firsts(cs[..|cs| - 1], need), cs[|cs| - 1];
      if Qualifies(c, need) then Appended(p, c) else p
  }

  ghost predicate SomeQualifying(cs: seq<UserHost>, need: Status, k: Key) {
    exists i :: 0 <= i < |cs| && Qualifies(cs[i], need) && KeyOfUser(cs[i]) == k
  }

  /** The list names every user@host of a qualifying op exactly once. */
  lemma {:induction false} FirstsOnce(cs: seq<UserHost>, need: Status, k: Key)
    ensures DifferentKeys(Firsts(cs, need)) && |Firsts(cs, need)| <= |cs|
    ensures KeyIn(Firsts(cs, need), k) <==> SomeQualifying(cs, need, k)
  {
    if cs != [] {
      var n := |cs| - 1;
      var p, c := cs[..n], cs[n];
      FirstsOnce(p, need, k);
      FirstsOnce(p, need, KeyOfUser(c));
      hide Qualifies, KeyOfUser;
      assert forall i :: 0 <= i < n ==> p[i] == cs[i];
      AppendedKeys(Firsts(p, need), c, k);
      assert SomeQualifying(cs, need, k) <==> SomeQualifying(p, need, k) || (Qualifies(c, need) && KeyOfUser(c) == k);
    }
  }

  /** The op counts: with ident asked for, only if its user name does not begin with a tilde; with reverse, never. */
  ghost predicate Eligible(c: UserHost, ident: bool, reverse: bool) {
    !reverse && (!ident || |c.user| == 0 || c.user[0] != 0x7e)
  }

  /** Exactly the user@hosts of the ops that count are listed. */
  lemma FirstsExact(cs: seq<UserHost>, need: Status, k: Key)
    ensures (exists u <- Firsts(cs, need) :: KeyOf(u.user, u.host) == k)
            <==> exists c <- cs :: KeyOf(c.user, c.host) == k && Eligible(c, need.ident, need.reverse)
  {
    FirstsOnce(cs, need, k);
    hide KeyOf;
    var us := Firsts(cs, need);
    assert KeyIn(us, k) <==> exists u <- us :: KeyOf(u.user, u.host) == k;
    assert SomeQualifying(cs, need, k) <==>
           exists c <- cs :: KeyOf(c.user, c.host) == k && Eligible(c, need.ident, need.reverse);
  }

  /** Asking for a reverse lookup leaves nobody. */
  lemma NoneWithReverse(cs: seq<UserHost>, need: Status)
    requires need.reverse
    ensures Firsts(cs, need) == []
  {
    if Firsts(cs, need) != [] {
      var u := Firsts(cs, need)[0];
      FirstsExact(cs, need, KeyOf(u.user, u.host));
    }
  }

  /** The settings as they are used. */
  lemma SettingsExact(setting: int)
    ensures MinClients(setting) == (if setting >= 2 then setting else 4)
    ensures RunLimit(setting) == (if setting >= 1 then setting else 1000)
  {
  }

  lemma AppendedKeys(us: seq<UserHost>, u: UserHost, k: Key)
    requires DifferentKeys(us)
    ensures DifferentKeys(Appended(us, u)) && |us| <= |Appended(us, u)| <= |us| + 1
    ensures KeyIn(Appended(us, u), k) <==> KeyIn(us, k) || KeyOfUser(u) == k
  {
    var r := us + [u];
    hide KeyOfUser;
    assert forall i :: 0 <= i < |us| ==> r[i] == us[i];
    assert r[|us|] == u;
  }

  // ---------------------------------------------------------------- the arrays of userhosts

  ghost function Pairs(users: array<CString>, hosts: array<CString>, n: nat): (r: seq<UserHost>)
    requires n <= users.Length && n <= hosts.Length
    reads users, hosts
    ensures |r| == n && forall i :: 0 <= i < n ==> r[i] == UserHost(users[i], hosts[i])
  {
    seq(n, i requires 0 <= i < n reads users, hosts => UserHost(users[i], hosts[i]))
  }

  /** add_userhost_to_array */
  method AddUserHost(users: array<CString>, hosts: array<CString>, n: nat, u: UserHost) returns (m: nat)
    requires n < users.Length && n < hosts.Length && users != hosts
    modifies users, hosts
    ensures n <= m <= n + 1 && Pairs(users, hosts, m) == Appended(old(Pairs(users, hosts, n)), u)
  {
    ghost var was := Pairs(users, hosts, n);
    for i := 0 to n
      invariant forall j :: 0 <= j < i ==> KeyOfUser(was[j]) != KeyOfUser(u)
    {
      if KeyOf(users[i], hosts[i]) == KeyOf(u.user, u.host) {
        assert KeyOfUser(was[i]) == KeyOfUser(u);
        return n;
      }
    }
    users[n] := u.user;
    hosts[n] := u.host;
    assert Pairs(users, hosts, n + 1) == was + [u];
    return n + 1;
  }

  /** The walk over the ops of a channel. */
  method CollectOps(cs: seq<UserHost>, need: Status, users: array<CString>, hosts: array<CString>) returns (n: nat)
    requires |cs| <= users.Length && |cs| <= hosts.Length && users != hosts
    modifies users, hosts
    ensures n <= |cs| && Pairs(users, hosts, n) == Firsts(cs, need)
  {
    n := 0;
    for i := 0 to |cs|
      invariant n <= i && Pairs(users, hosts, n) == Firsts(cs[..i], need)
    {
      assert cs[..i + 1][..i] == cs[..i];
      hide Appended;
      if Qualifies(cs[i], need) { n := AddUserHost(users, hosts, n, cs[i]); }
    }
    assert cs[..|cs|] == cs;
  }

  // ---------------------------------------------------------------- channels and buckets

  /** The database events that gathering a channel causes. */
  ghost function LiveEvents(ch: Live, min: nat, need: Status): seq<Event> {
    if ch.users > STATIC_USERHOSTS || ch.users >= min then ChannelEvents(ch.name, Firsts(ch.chanops, need)) else []
  }

  ghost function BucketEvents(list: seq<Live>, min: nat, need: Status): seq<Event> {
    if list == [] then []
    else BucketEvents(list[..|list| - 1], min, need) + LiveEvents(list[|list| - 1], min, need)
  }

  ghost predicate Sized(list: seq<Live>) {
    forall i :: 0 <= i < |list| ==> |list[i].chanops| <= list[i].users
  }

  /** Registers the collected userhosts. */
  method RegisterAllOps(store: Store, users: array<CString>, hosts: array<CString>, n: nat)
    requires store.Valid() && n <= users.Length && n <= hosts.Length
    requires users !in store.table.Repr && hosts !in store.table.Repr
    modifies store, store.table.Repr
    ensures store.Valid() && fresh(store.table.Repr - old(store.table.Repr)) && old(store.table.Repr) <= store.table.Repr
    ensures store.View() == RunFrom(old(store.View()), Registrations(old(Pairs(users, hosts, n))))
  {
    ghost var us, v := Pairs(users, hosts, n), store.View();
    assert us[..0] == [] && Registrations([]) == [];
    for i := 0 to n
      invariant store.Valid() && fresh(store.table.Repr - old(store.table.Repr)) && old(store.table.Repr) <= store.table.Repr
      invariant users !in store.table.Repr && hosts !in store.table.Repr
      invariant forall j :: 0 <= j < n ==> us[j] == UserHost(users[j], hosts[j])
      invariant store.View() == RunFrom(v, Registrations(us[..i]))
    {
      RegistrationsSnoc(v, us[..i + 1]);
      assert us[..i + 1][..i] == us[..i];
      hide *;
      store.RegisterOp(users[i], hosts[i]);
    }
    assert us[..n] == us;
  }

  /**
   * update_scores_of_channel with arrays of a fixed size, update_scores_of_large_channel with arrays that
   * have a place for every user.
   */
  method UpdateScores(store: Store, ch: Live, need: Status, capacity: nat)
    requires store.Valid() && |ch.chanops| <= capacity
    modifies store, store.table.Repr
    ensures store.Valid() && fresh(store.table.Repr - old(store.table.Repr)) && old(store.table.Repr) <= store.table.Repr
    ensures store.View() == RunFrom(old(store.View()), ChannelEvents(ch.name, Firsts(ch.chanops, need)))
  {
    hide *;
    var users, hosts := new CString[capacity], new CString[capacity];
    var n := CollectOps(ch.chanops, need, users, hosts);
    WriteOps(store, ch.name, users, hosts, n);
  }

  /** Adds the collected userhosts to the database. */
  method WriteOps(store: Store, name: CString, users: array<CString>, hosts: array<CString>, n: nat)
    requires store.Valid() && n <= users.Length && n <= hosts.Length
    requires users !in store.table.Repr && hosts !in store.table.Repr
    modifies store, store.table.Repr
    ensures store.Valid() && fresh(store.table.Repr - old(store.table.Repr)) && old(store.table.Repr) <= store.table.Repr
    ensures store.View() == RunFrom(old(store.View()), ChannelEvents(name, old(Pairs(users, hosts, n))))
  {
    ChannelRun(store.View(), name, Pairs(users, hosts, n));
    hide *;
    var _ := store.SetWriteChannel(Some(name));
    RegisterAllOps(store, users, hosts, n);
  }

  /** One channel of a bucket. */
  method GatherChannel(store: Store, ch: Live, min: nat, need: Status)
    requires store.Valid() && |ch.chanops| <= ch.users
    modifies store, store.table.Repr
    ensures store.Valid() && fresh(store.table.Repr - old(store.table.Repr)) && old(store.table.Repr) <= store.table.Repr
    ensures store.View() == RunFrom(old(store.View()), LiveEvents(ch, min, need))
  {
    hide RunFrom, ChannelEvents, Firsts, Sane;
    NoEvents(store.View());
    if ch.users > STATIC_USERHOSTS {
      UpdateScores(store, ch, need, ch.users);
    } else if ch.users >= min {
      UpdateScores(store, ch, need, STATIC_USERHOSTS);
    }
  }

  lemma NoEvents(v: Db)
    requires Sane(v)
    ensures RunFrom(v, []) == v
  {
  }

  /** gather_channels_in_bucket */
  method GatherBucket(store: Store, list: seq<Live>, min: nat, need: Status) returns (channels: nat)
    requires store.Valid() && Sized(list)
    modifies store, store.table.Repr
    ensures store.Valid() && fresh(store.table.Repr - old(store.table.Repr)) && old(store.table.Repr) <= store.table.Repr
    ensures store.View() == RunFrom(old(store.View()), BucketEvents(list, min, need)) && channels == |list|
  {
    channels := 0;
    ghost var v := store.View();
    assert Sane(v) && list[..0] == [] && BucketEvents([], min, need) == [];
    NoEvents(v);
    hide Sane, RunFrom, BucketEvents, LiveEvents;
    while channels < |list|
      invariant store.Valid() && fresh(store.table.Repr - old(store.table.Repr)) && old(store.table.Repr) <= store.table.Repr
      invariant channels <= |list| && store.View() == RunFrom(v, BucketEvents(list[..channels], min, need))
      decreases |list| - channels
    {
      BucketStep(v, list, channels, min, need);
      GatherChannel(store, list[channels], min, need);
      channels := channels + 1;
    }
    assert list[..channels] == list;
  }

  lemma BucketStep(v: Db, list: seq<Live>, i: nat, min: nat, need: Status)
    requires Sane(v) && i < |list|
    ensures var es := LiveEvents(list[i], min, need);
            RunFrom(v, BucketEvents(list[..i + 1], min, need)) == RunFrom(RunFrom(v, BucketEvents(list[..i], min, need)), es)
  {
    assert list[..i + 1][..i] == list[..i];
    hide RunFrom;
    RunFromConcat(v, BucketEvents(list[..i], min, need), LiveEvents(list[i], min, need));
  }

  // ---------------------------------------------------------------- rounds

  /** The buckets are taken in turn, over and over. */
  ghost predicate InTurn(done: seq<nat>, buckets: nat)
    requires buckets > 0
  {
    forall i :: 0 <= i < |done| ==> done[i] == i % buckets
  }

  lemma ModNext(n: nat, b: nat)
    requires b > 0
    ensures (n + 1) % b == if n % b + 1 == b then 0 else n % b + 1
  {
    var q, r := n / b, n % b;
    assert n == b * q + r;
    if r + 1 == b {
      assert n + 1 == b * (q + 1);
      ModUnique(n + 1, b, q + 1, 0);
    } else {
      ModUnique(n + 1, b, q, r + 1);
    }
  }

  lemma ModUnique(n: nat, b: nat, q: nat, r: nat)
    requires b > 0 && r < b && n == b * q + r
    ensures n % b == r
  {
    var k := n / b;
    assert n == b * k + n % b;
    if k < q { MulStep(b, k, q); }
    if q < k { MulStep(b, q, k); }
  }

  lemma MulStep(b: nat, x: nat, y: nat)
    requires x < y
    ensures b * x + b <= b * y
  {
    var k := y - x - 1;
    assert k >= 0 && b * k >= 0;
    assert y == x + 1 + k && b * (x + 1 + k) == b * x + b + b * k;
  }

  ghost function Range(from: nat, end: nat): (r: seq<nat>)
    requires from <= end
    ensures |r| == end - from
    decreases end
  {
    if from == end then [] else Range(from, end - 1) + [end - 1]
  }

  lemma {:induction false} RangeInTurn(done: seq<nat>, from: nat, end: nat, buckets: nat)
    requires buckets > 0 && InTurn(done, buckets) && |done| % buckets == from <= end <= buckets
    ensures InTurn(done + Range(from, end), buckets)
    ensures |done + Range(from, end)| % buckets == if end == buckets then 0 else end
    decreases end
  {
    if from < end {
      RangeInTurn(done, from, end - 1, buckets);
      var r := done + Range(from, end - 1);
      ModNext(|r|, buckets);
      assert done + Range(from, end) == r + [end - 1];
    } else {
      assert done + Range(from, end) == done;
    }
  }

  /** In every finished round each bucket is taken exactly once. */
  lemma EachBucketOnce(done: seq<nat>, buckets: nat, round: nat, b: nat)
    requires b < buckets && InTurn(done, buckets) && (round + 1) * buckets <= |done|
    ensures done[round * buckets + b] == b
    ensures forall i :: round * buckets <= i < (round + 1) * buckets && done[i] == b ==> i == round * buckets + b
  {
    ModUnique(round * buckets + b, buckets, round, b);
    forall i | round * buckets <= i < (round + 1) * buckets && done[i] == b ensures i == round * buckets + b {
      ModUnique(i, buckets, round, i - round * buckets);
    }
  }

  ghost function TableEvents(table: seq<seq<Live>>, min: nat, need: Status): seq<Event> {
    if table == [] then []
    else TableEvents(table[..|table| - 1], min, need) + BucketEvents(table[|table| - 1], min, need)
  }

  ghost function ChannelCount(table: seq<seq<Live>>): nat {
    if table == [] then 0 else ChannelCount(table[..|table| - 1]) + |table[|table| - 1]|
  }

  /** The static and global variables of gather_all_channels. */
  class Gatherer {
    const buckets: nat          // CH_MAX
    const store: Store
    var busy: bool
    var currentBucket: nat
    var currentDay: nat         // current_day_since_epoch
    ghost var done: seq<nat>    // every bucket ever gathered

    ghost predicate Valid()
      reads this, store.table
    {
      && this !in store.table.Repr
      && buckets > 0 && InTurn(done, buckets) && |done| % buckets == currentBucket
      && (busy <==> currentBucket > 0)
    }

    constructor (buckets: nat, store: Store, day: nat)
      requires buckets > 0
      ensures Valid() && this.buckets == buckets && this.store == store && done == [] && currentDay == day
    {
      this.buckets, this.store := buckets, store;
      busy, currentBucket, currentDay, done := false, 0, day, [];
    }

    /** One turn of the loop over the buckets. */
    method GatherNext(table: seq<seq<Live>>, min: nat, need: Status) returns (n: nat)
      requires store.Valid() && this !in store.table.Repr && currentBucket < |table| && Sized(table[currentBucket])
      modifies this`currentBucket, this`done, store, store.table.Repr
      ensures store.Valid() && fresh(store.table.Repr - old(store.table.Repr)) && old(store.table.Repr) <= store.table.Repr
      ensures currentBucket == old(currentBucket) + 1 && done == old(done) + [old(currentBucket)]
      ensures n == |table[old(currentBucket)]| && Sane(store.View()) && this !in store.table.Repr
      ensures store.View() == RunFrom(old(store.View()), BucketEvents(table[old(currentBucket)], min, need))
    {
      hide RunFrom, BucketEvents, Sane, Sized;
      n := GatherBucket(store, table[currentBucket], min, need);
      done := done + [currentBucket];
      currentBucket := currentBucket + 1;
    }

    /** One turn, with the number of channels seen so far. */
    method GatherOn(table: seq<seq<Live>>, min: nat, need: Status, n: nat, limit: nat,
                    ghost v: Db, ghost first: nat, ghost was: seq<nat>)
      returns (m: nat)
      requires store.Valid() && this !in store.table.Repr && Sane(v)
      requires |table| == buckets && forall b :: 0 <= b < |table| ==> Sized(table[b])
      requires currentBucket < buckets && n < limit
      requires Reached(v, store.View(), table, first, currentBucket, was, done, n, limit, min, need)
      modifies this`currentBucket, this`done, store, store.table.Repr
      ensures store.Valid() && fresh(store.table.Repr - old(store.table.Repr)) && old(store.table.Repr) <= store.table.Repr
      ensures currentBucket == old(currentBucket) + 1 && this !in store.table.Repr
      ensures Reached(v, store.View(), table, first, currentBucket, was, done, m, limit, min, need)
    {
      hide Reached, RunFrom, BucketEvents, Sane, Sized;
      ReachedOn(v, store.View(), table, first, currentBucket, was, done, n, limit, min, need);
      hide *;
      var k := GatherNext(table, min, need);
      m := n + k;
    }

    /** The loop over the buckets: goes on until enough channels were seen or the table ends. */
    method GatherLoop(table: seq<seq<Live>>, limit: nat, min: nat, need: Status, ghost v: Db, ghost first: nat, ghost was: seq<nat>)
      returns (n: nat)
      requires store.Valid() && this !in store.table.Repr && Sane(v)
      requires |table| == buckets && forall b :: 0 <= b < |table| ==> Sized(table[b])
      requires Reached(v, store.View(), table, first, currentBucket, was, done, 0, limit, min, need)
      modifies this`currentBucket, this`done, store, store.table.Repr
      ensures store.Valid() && fresh(store.table.Repr - old(store.table.Repr)) && old(store.table.Repr) <= store.table.Repr
      ensures Reached(v, store.View(), table, first, currentBucket, was, done, n, limit, min, need)
      ensures currentBucket == buckets || n >= limit
    {
      n := 0;
      hide *;
      while currentBucket < buckets && n < limit
        invariant store.Valid() && fresh(store.table.Repr - old(store.table.Repr)) && old(store.table.Repr) <= store.table.Repr
        invariant Reached(v, store.View(), table, first, currentBucket, was, done, n, limit, min, need)
        invariant currentBucket <= buckets && this !in store.table.Repr
        decreases buckets - currentBucket
      {
        n := GatherOn(table, min, need, n, limit, v, first, was);
      }
    }

    /** The whole loop. */
    method GatherRun(table: seq<seq<Live>>, limit: nat, min: nat, need: Status) returns (ghost end: nat)
      requires store.Valid() && this !in store.table.Repr
      requires |table| == buckets && forall b :: 0 <= b < |table| ==> Sized(table[b])
      requires currentBucket < buckets && limit > 0
      modifies this`currentBucket, this`done, store, store.table.Repr
      ensures store.Valid() && fresh(store.table.Repr - old(store.table.Repr)) && old(store.table.Repr) <= store.table.Repr
      ensures Gathered(table, old(currentBucket), end, old(done), done, limit) && this !in store.table.Repr
      ensures old(currentBucket) < end == currentBucket <= buckets
      ensures store.View() == RunFrom(old(store.View()), TableEvents(table[old(currentBucket)..end], min, need))
    {
      ghost var v, first, was := store.View(), currentBucket, done;
      Started(v, table, first, was, limit, min, need);
      hide *;
      var n := GatherLoop(table, limit, min, need, v, first, was);
      Finished(v, store.View(), table, first, currentBucket, was, done, n, limit, min, need);
      end := currentBucket;
    }

    /**
     * gather_all_channels. Whatever the splits and the limits, the buckets are taken in turn; a call during
     * a split leaves the round where it is, and any other call moves it on.
     */
    method GatherAll(table: seq<seq<Live>>, today: nat, split: bool, minSetting: int, perRun: int, need: Status)
      returns (ghost end: nat)
      requires Valid() && store.Valid() && |table| == buckets && (forall b :: 0 <= b < |table| ==> Sized(table[b]))
      modifies this, store, store.table.Repr
      ensures Valid() && store.Valid()
      ensures fresh(store.table.Repr - old(store.table.Repr)) && old(store.table.Repr) <= store.table.Repr
      ensures currentDay == if today > old(currentDay) then today else old(currentDay)
      ensures split ==> done == old(done) && currentBucket == old(currentBucket)
      ensures split ==> store.View() == Rotated(old(store.View()), today, old(currentDay))
      ensures !split ==> Gathered(table, old(currentBucket), end, old(done), done, RunLimit(perRun))
      ensures !split ==> store.View() == RunFrom(Rotated(old(store.View()), today, old(currentDay)),
                                            TableEvents(table[old(currentBucket)..end], MinClients(minSetting), need))
    {
      hide RunFrom, TableEvents, InTurn, Rotated, Store.Valid, Store.View, Gathered, Sized, MinClients;
      Rotate(today);
      end := 0;
      if split { return; }
      if !busy {
        busy := true;
        currentBucket := 0;
      }
      ghost var first, was := currentBucket, done;
      BucketInTable(done, currentBucket, buckets);
      end := GatherRun(table, RunLimit(perRun), MinClients(minSetting), need);
      GatheredInTurn(table, first, end, was, done, RunLimit(perRun));
      if currentBucket == buckets {
        currentBucket := 0;
        busy := false;
      }
    }

    /** Rotates the database if it is past midnight. */
    method Rotate(today: nat)
      requires Valid() && store.Valid()
      modifies this`currentDay, store, store.table.Repr
      ensures Valid() && store.Valid()
      ensures fresh(store.table.Repr - old(store.table.Repr)) && old(store.table.Repr) <= store.table.Repr
      ensures currentDay == if today > old(currentDay) then today else old(currentDay)
      ensures store.View() == Rotated(old(store.View()), today, old(currentDay))
    {
      hide InTurn, Sane, Step;
      if today > currentDay {
        currentDay := today;
        store.UpdateDay(today);
      }
    }
  }

  function RunLimit(perRun: int): nat {
    if perRun < 1 then CHANNELS_PER_RUN else perRun
  }

  function MinClients(setting: int): nat {
    if setting < 2 then MINCLIENTS else setting
  }

  ghost function Rotated(v: Db, today: nat, current: nat): (r: Db)
    requires Sane(v)
    ensures Sane(r)
  {
    StepSane(v, UpdateDay(today));
    if today > current then Step(v, UpdateDay(today)) else v
  }

  /** Only a later day rotates the database; then nothing is left open and the new day is the current one. */
  lemma RotatedExact(v: Db, today: nat, current: nat)
    requires Sane(v)
    ensures today <= current ==> Rotated(v, today, current) == v
    ensures today > current ==> Rotated(v, today, current).day == today % 14 && Rotated(v, today, current).write == None
  {
    StepRolls(v, today);
    hide Sane, Step;
  }

  /** One call took the buckets from first up to end: enough to see limit channels, and no more. */
  ghost predicate Gathered(table: seq<seq<Live>>, first: nat, end: nat, was: seq<nat>, done: seq<nat>, limit: nat) {
    && first < end <= |table| && done == was + Range(first, end)
    && ChannelCount(table[first..end - 1]) < limit
    && (end < |table| ==> ChannelCount(table[first..end]) >= limit)
  }

  lemma BucketInTable(done: seq<nat>, bucket: nat, buckets: nat)
    requires buckets > 0 && |done| % buckets == bucket
    ensures bucket < buckets
  {
  }

  lemma GatheredInTurn(table: seq<seq<Live>>, first: nat, end: nat, was: seq<nat>, done: seq<nat>, limit: nat)
    requires Gathered(table, first, end, was, done, limit) && InTurn(was, |table|) && |was| % |table| == first
    ensures InTurn(done, |table|) && |done| % |table| == if end == |table| then 0 else end
  {
    RangeInTurn(was, first, end, |table|);
  }

  /** How far the loop got. */
  ghost predicate Reached(v: Db, view: Db, table: seq<seq<Live>>, first: nat, at: nat, was: seq<nat>, done: seq<nat>,
                          n: nat, limit: nat, min: nat, need: Status)
    requires Sane(v)
  {
    && first <= at <= |table| && done == was + Range(first, at)
    && view == RunFrom(v, TableEvents(table[first..at], min, need))
    && n == ChannelCount(table[first..at])
    && (at > first ==> ChannelCount(table[first..at - 1]) < limit)
  }

  lemma Started(v: Db, table: seq<seq<Live>>, first: nat, was: seq<nat>, limit: nat, min: nat, need: Status)
    requires Sane(v) && first <= |table|
    ensures Reached(v, v, table, first, first, was, was, 0, limit, min, need)
  {
    assert table[first..first] == [] && was + Range(first, first) == was;
    assert TableEvents([], min, need) == [];
  }

  lemma ReachedOn(v: Db, view: Db, table: seq<seq<Live>>, first: nat, at: nat, was: seq<nat>, done: seq<nat>,
                  n: nat, limit: nat, min: nat, need: Status)
    requires Sane(v) && Sane(view) && Reached(v, view, table, first, at, was, done, n, limit, min, need)
    requires at < |table| && n < limit
    ensures Reached(v, RunFrom(view, BucketEvents(table[at], min, need)), table, first, at + 1, was, done + [at],
                    n + |table[at]|, limit, min, need)
  {
    hide RunFrom, TableEvents, BucketEvents, ChannelCount, Sane;
    TableStep(v, table, first, at, min, need);
    assert was + Range(first, at + 1) == was + Range(first, at) + [at];
  }

  lemma Finished(v: Db, view: Db, table: seq<seq<Live>>, first: nat, at: nat, was: seq<nat>, done: seq<nat>,
                 n: nat, limit: nat, min: nat, need: Status)
    requires Sane(v) && Reached(v, view, table, first, at, was, done, n, limit, min, need)
    requires first < |table| && limit > 0 && (at == |table| || n >= limit)
    ensures Gathered(table, first, at, was, done, limit) && first < at <= |table|
    ensures view == RunFrom(v, TableEvents(table[first..at], min, need))
  {
    hide RunFrom, TableEvents, Sane;
    assert table[first..first] == [] && ChannelCount([]) == 0;
  }

  lemma TableStep(v: Db, table: seq<seq<Live>>, first: nat, b: nat, min: nat, need: Status)
    requires Sane(v) && first <= b < |table|
    ensures RunFrom(v, TableEvents(table[first..b + 1], min, need))
            == RunFrom(RunFrom(v, TableEvents(table[first..b], min, need)), BucketEvents(table[b], min, need))
    ensures ChannelCount(table[first..b + 1]) == ChannelCount(table[first..b]) + |table[b]|
  {
    hide RunFrom, Sane, BucketEvents;
    TableSnoc(table[first..b + 1], min, need);
    var t := table[first..b + 1];
    assert t[..|t| - 1] == table[first..b] && t[|t| - 1] == table[b];
    RunFromConcat(v, TableEvents(table[first..b], min, need), BucketEvents(table[b], min, need));
  }

  lemma TableSnoc(t: seq<seq<Live>>, min: nat, need: Status)
    requires t != []
    ensures TableEvents(t, min, need) == TableEvents(t[..|t| - 1], min, need) + BucketEvents(t[|t| - 1], min, need)
    ensures ChannelCount(t) == ChannelCount(t[..|t| - 1]) + |t[|t| - 1]|
  {
  }
}
