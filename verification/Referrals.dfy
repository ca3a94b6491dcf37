/**
 Registration with referral codes and the rewards that follow it. Tables are sequences and an id is a
 position, so ids grow with the order of saving; amounts are in cents.
 */
module Referrals {
  import opened Common

  const REFEREE_BONUS := 1000
  const REGISTRATION_REWARD := 500
  const MILESTONE_REWARD := 1500
  const MAX_CODE_ATTEMPTS := 10

  datatype User = User(email: string, username: string, code: string, referredBy: Option<nat>,
                       registrationCompleted: bool, firstGameCompleted: bool)

  datatype ReferralStatus = Pending | Completed

  datatype Referral = Referral(code: string, referrer: nat, referee: nat, status: ReferralStatus,
                               registrationRewardGiven: bool, milestoneRewardGiven: bool)

  datatype RewardKind = RefereeBonus | ReferralRegistration | ReferralMilestone

  datatype RewardStatus = Outstanding | Awarded | Claimed

  datatype Reward = Reward(user: nat, referral: nat, kind: RewardKind, cents: int, status: RewardStatus)

  datatype Error = Conflict | NoUniqueCode | InvalidCode | OwnCode | AlreadyReferred | UserNotFound

  datatype Stats = Stats(totalReferrals: nat, completedReferrals: nat, totalRewards: int, pendingRewards: int,
                         code: string)

  // ---- Queries --------------------------------------------------------------------------------

  /** The first matching row, as `findOne` returns it. */
  function First<T>(rows: seq<T>, matches: T -> bool): (k: Option<nat>)
    ensures k.None? ==> forall i | 0 <= i < |rows| :: !matches(rows[i])
    ensures k.Some? ==> k.value < |rows| && matches(rows[k.value]) && forall i | 0 <= i < k.value :: !matches(rows[i])
  {
    if rows == [] then None
    else
      var n := |rows| - 1;
      var earlier := First(rows[..n], matches);
      if earlier.Some? then earlier else if matches(rows[n]) then Some(n) else None
  }

  /** Which referrals of a user are counted. */
  datatype Role = Received | Made | MadeAndRegistered | MadeAndCompleted

  predicate Plays(r: Referral, user: nat, role: Role) {
    match role
    case Received => r.referee == user
    case Made => r.referrer == user
    case MadeAndRegistered => r.referrer == user && r.registrationRewardGiven
    case MadeAndCompleted => r.referrer == user && r.status == Completed
  }

  function CountOf(referrals: seq<Referral>, user: nat, role: Role): nat {
    if referrals == [] then 0
    else
      var n := |referrals| - 1;
      CountOf(referrals[..n], user, role) + (if Plays(referrals[n], user, role) then 1 else 0)
  }

  /** The sum of a user's rewards, either the pending ones or the others. */
  function SumOf(rewards: seq<Reward>, user: nat, pending: bool): int {
    if rewards == [] then 0
    else
      var n := |rewards| - 1;
      var r := rewards[n];
      SumOf(rewards[..n], user, pending)
      + (if r.user == user && (r.status == Outstanding) == pending then r.cents else 0)
  }

  function RewardCount(rewards: seq<Reward>, referral: nat, kind: RewardKind): nat {
    if rewards == [] then 0
    else
      var n := |rewards| - 1;
      RewardCount(rewards[..n], referral, kind)
      + (if rewards[n].referral == referral && rewards[n].kind == kind then 1 else 0)
  }

  lemma {:induction false} CountAfterUpdate(referrals: seq<Referral>, i: nat, r: Referral, user: nat, role: Role)
    requires i < |referrals|
    ensures CountOf(referrals[i := r], user, role)
      == CountOf(referrals, user, role)
         + (if Plays(r, user, role) then 1 else 0) - (if Plays(referrals[i], user, role) then 1 else 0)
  {
    var n := |referrals| - 1;
    if i == n {
      assert referrals[i := r][..n] == referrals[..n];
    } else {
      assert referrals[i := r][..n] == referrals[..n][i := r];
      CountAfterUpdate(referrals[..n], i, r, user, role);
    }
  }

  lemma CountAfterAppend(referrals: seq<Referral>, r: Referral, user: nat, role: Role)
    ensures CountOf(referrals + [r], user, role)
      == CountOf(referrals, user, role) + (if Plays(r, user, role) then 1 else 0)
  {
    assert (referrals + [r])[..|referrals|] == referrals;
  }

  lemma AfterReward(rewards: seq<Reward>, r: Reward, user: nat, pending: bool)
    ensures SumOf(rewards + [r], user, pending)
      == SumOf(rewards, user, pending) + (if r.user == user && (r.status == Outstanding) == pending then r.cents else 0)
  {
    assert (rewards + [r])[..|rewards|] == rewards;
  }

  lemma CountAfterReward(rewards: seq<Reward>, r: Reward, referral: nat, kind: RewardKind)
    ensures RewardCount(rewards + [r], referral, kind)
      == RewardCount(rewards, referral, kind) + (if r.referral == referral && r.kind == kind then 1 else 0)
  {
    assert (rewards + [r])[..|rewards|] == rewards;
  }

  /** The referrals a user made, and those of them that are completed, by position. */
  function MadeBy(referrals: seq<Referral>, user: nat): set<nat> {
    set i: nat | i < |referrals| && referrals[i].referrer == user
  }

  function CompletedBy(referrals: seq<Referral>, user: nat): set<nat> {
    set i: nat | i < |referrals| && referrals[i].referrer == user && referrals[i].status == Completed
  }

  lemma MadeGrows(referrals: seq<Referral>, r: Referral, user: nat)
    ensures var n := |referrals|;
            && n !in MadeBy(referrals, user) && n !in CompletedBy(referrals, user)
            && MadeBy(referrals + [r], user) == MadeBy(referrals, user) + (if r.referrer == user then {n} else {})
            && CompletedBy(referrals + [r], user)
               == CompletedBy(referrals, user) + (if r.referrer == user && r.status == Completed then {n} else {})
  {
    var after := referrals + [r];
    assert forall i: nat | i < |referrals| :: after[i] == referrals[i];
  }

  /** The counts are the sizes of the sets they stand for. */
  lemma {:induction false} CountsAreSizes(referrals: seq<Referral>, user: nat)
    ensures CountOf(referrals, user, Made) == |MadeBy(referrals, user)|
    ensures CountOf(referrals, user, MadeAndCompleted) == |CompletedBy(referrals, user)|
  {
    if referrals == [] {
      assert MadeBy(referrals, user) == {} && CompletedBy(referrals, user) == {};
    } else {
      var n := |referrals| - 1;
      CountsAreSizes(referrals[..n], user);
      MadeGrows(referrals[..n], referrals[n], user);
      assert referrals[..n] + [referrals[n]] == referrals;
    }
  }

  lemma {:induction false} NoRewardYet(rewards: seq<Reward>, referral: nat, kind: RewardKind)
    requires forall i | 0 <= i < |rewards| :: rewards[i].referral != referral
    ensures RewardCount(rewards, referral, kind) == 0
  {
    if rewards != [] {
      NoRewardYet(rewards[..|rewards| - 1], referral, kind);
    }
  }

  // ---- The graph ------------------------------------------------------------------------------

  predicate Taken(users: seq<User>, code: string) {
    exists u | 0 <= u < |users| :: users[u].code == code
  }

  ghost predicate DistinctUsers(users: seq<User>) {
    forall i, j | 0 <= i < j < |users| ::
      users[i].email != users[j].email && users[i].username != users[j].username && users[i].code != users[j].code
  }

  /** Each edge goes to an earlier user, each user has at most one edge, and `referredBy` records exactly the edges. */
  ghost predicate Forest(users: seq<User>, referrals: seq<Referral>) {
    && EarlierReferrers(users)
    && (forall i | 0 <= i < |referrals| :: referrals[i].referee < |users|
          && users[referrals[i].referee].referredBy == Some(referrals[i].referrer)
          && referrals[i].registrationRewardGiven == users[referrals[i].referee].registrationCompleted
          && referrals[i].milestoneRewardGiven == users[referrals[i].referee].firstGameCompleted
          && (referrals[i].status == Completed <==> referrals[i].milestoneRewardGiven))
    && (forall i, j | 0 <= i < j < |referrals| :: referrals[i].referee != referrals[j].referee)
    && OneEdgeEach(users, referrals)
  }

  ghost predicate OneEdgeEach(users: seq<User>, referrals: seq<Referral>) {
    forall u: nat :: CountOf(referrals, u, Received) == if u < |users| && users[u].referredBy.Some? then 1 else 0
  }

  predicate EarlierReferrers(users: seq<User>) {
    forall u | 0 <= u < |users| && users[u].referredBy.Some? :: users[u].referredBy.value < u
  }

  /** The user reached by following `referredBy` a number of times, if there is one. */
  function Ancestor(users: seq<User>, user: nat, steps: nat): Option<nat>
    requires user < |users| && EarlierReferrers(users)
    decreases steps
  {
    if steps == 0 then Some(user)
    else if users[user].referredBy.None? then None
    else Ancestor(users, users[user].referredBy.value, steps - 1)
  }

  /** Every `referredBy` chain ends, within as many steps as users were saved earlier, and none returns to its start. */
  lemma {:induction false} ChainsEnd(users: seq<User>, user: nat, steps: nat)
    requires user < |users| && EarlierReferrers(users)
    ensures steps > user ==> Ancestor(users, user, steps).None?
    ensures steps > 0 ==> Ancestor(users, user, steps) != Some(user)
    ensures Ancestor(users, user, steps).Some? ==> Ancestor(users, user, steps).value + steps <= user
    decreases steps
  {
    if steps > 0 && users[user].referredBy.Some? {
      ChainsEnd(users, users[user].referredBy.value, steps - 1);
    }
  }

  lemma FlagKeepsEdges(users: seq<User>, users': seq<User>, referrals: seq<Referral>, i: nat, r: Referral)
    requires i < |referrals| && r.referee == referrals[i].referee
    requires |users'| == |users| && forall u | 0 <= u < |users| :: users'[u].referredBy == users[u].referredBy
    requires OneEdgeEach(users, referrals)
    ensures OneEdgeEach(users', referrals[i := r])
  {
    var after := referrals[i := r];
    forall u: nat ensures CountOf(after, u, Received) == if u < |users'| && users'[u].referredBy.Some? then 1 else 0 {
      CountAfterUpdate(referrals, i, r, u, Received);
      assert CountOf(referrals, u, Received) == if u < |users| && users[u].referredBy.Some? then 1 else 0;
    }
  }

  lemma NewUserKeepsForest(users: seq<User>, referrals: seq<Referral>, u: User)
    requires Forest(users, referrals) && u.referredBy.None?
    ensures Forest(users + [u], referrals) && forall i | 0 <= i < |referrals| :: referrals[i].referee != |users|
  {
    var after := users + [u];
    forall v: nat ensures CountOf(referrals, v, Received) == if v < |after| && after[v].referredBy.Some? then 1 else 0 {
      assert CountOf(referrals, v, Received) == if v < |users| && users[v].referredBy.Some? then 1 else 0;
    }
  }

  lemma NewReferralKeepsForest(users: seq<User>, referrals: seq<Referral>, r: Referral)
    requires Forest(users, referrals) && r.referrer < r.referee < |users| && users[r.referee].referredBy.None?
    requires !users[r.referee].registrationCompleted && !users[r.referee].firstGameCompleted
    requires r.status == Pending && !r.registrationRewardGiven && !r.milestoneRewardGiven
    ensures Forest(users[r.referee := users[r.referee].(referredBy := Some(r.referrer))], referrals + [r])
  {
    var after := users[r.referee := users[r.referee].(referredBy := Some(r.referrer))];
    forall v: nat
      ensures CountOf(referrals + [r], v, Received) == if v < |after| && after[v].referredBy.Some? then 1 else 0
    {
      CountAfterAppend(referrals, r, v, Received);
    }
  }

  /** The two events that pay the referrer. */
  datatype Milestone = Registration | FirstGame

  function Reached(u: User, m: Milestone): User {
    match m
    case Registration => u.(registrationCompleted := true)
    case FirstGame => u.(firstGameCompleted := true)
  }

  function Given(r: Referral, m: Milestone): bool {
    match m
    case Registration => r.registrationRewardGiven
    case FirstGame => r.milestoneRewardGiven
  }

  function Mark(r: Referral, m: Milestone): Referral {
    match m
    case Registration => r.(registrationRewardGiven := true)
    case FirstGame => r.(milestoneRewardGiven := true, status := Completed)
  }

  function Payment(r: Referral, i: nat, m: Milestone): Reward {
    match m
    case Registration => Reward(r.referrer, i, ReferralRegistration, REGISTRATION_REWARD, Awarded)
    case FirstGame => Reward(r.referrer, i, ReferralMilestone, MILESTONE_REWARD, Awarded)
  }

  /** The user's referral, if its referrer has not been paid for the event. */
  function FindUnpaid(referrals: seq<Referral>, user: nat, m: Milestone): (k: Option<nat>)
    ensures k.None? ==> forall i | 0 <= i < |referrals| && referrals[i].referee == user :: Given(referrals[i], m)
    ensures k.Some? ==> k.value < |referrals| && referrals[k.value].referee == user && !Given(referrals[k.value], m)
  {
    First(referrals, (r: Referral) => r.referee == user && !Given(r, m))
  }

  /** Right after it is added, a referral is the one its referee has to be paid for. */
  lemma OnlyTheNewReferral(before: seq<Referral>, after: seq<Referral>, user: nat)
    requires forall i | 0 <= i < |before| :: before[i].referee != user
    requires after == before
      || (|after| == |before| + 1 && after[..|before|] == before
          && after[|before|].referee == user && !after[|before|].registrationRewardGiven)
    ensures FindUnpaid(after, user, Registration) == if after == before then None else Some(|before|)
  {
  }

  lemma UpdateLast<T>(before: seq<T>, last: T, updated: T)
    ensures (before + [last])[|before| := updated] == before + [updated]
  {
  }

  lemma EventKeepsForest(users: seq<User>, referrals: seq<Referral>, user: nat, m: Milestone)
    requires Forest(users, referrals)
    ensures var users' := if user < |users| then users[user := Reached(users[user], m)] else users;
            match FindUnpaid(referrals, user, m)
            case None => Forest(users', referrals)
            case Some(i) => Forest(users', referrals[i := Mark(referrals[i], m)])
  {
    var users' := if user < |users| then users[user := Reached(users[user], m)] else users;
    var found := FindUnpaid(referrals, user, m);
    if found.Some? {
      FlagKeepsEdges(users, users', referrals, found.value, Mark(referrals[found.value], m));
    } else {
      assert OneEdgeEach(users', referrals);
    }
  }

  // ---- The ledger -----------------------------------------------------------------------------

  /** What a user has earned, from the graph alone. */
  function Earned(referrals: seq<Referral>, user: nat): int {
    REFEREE_BONUS * CountOf(referrals, user, Received)
    + REGISTRATION_REWARD * CountOf(referrals, user, MadeAndRegistered)
    + MILESTONE_REWARD * CountOf(referrals, user, MadeAndCompleted)
  }

  /** Each referral carries one bonus, and one reward of each other kind exactly when its flag is up. */
  ghost predicate PaidOnce(r: Referral, i: nat, rewards: seq<Reward>) {
    && RewardCount(rewards, i, RefereeBonus) == 1
    && RewardCount(rewards, i, ReferralRegistration) == (if r.registrationRewardGiven then 1 else 0)
    && RewardCount(rewards, i, ReferralMilestone) == (if r.status == Completed then 1 else 0)
  }

  ghost predicate Ledger(referrals: seq<Referral>, rewards: seq<Reward>) {
    && (forall i | 0 <= i < |rewards| :: rewards[i].referral < |referrals|)
    && (forall i | 0 <= i < |referrals| :: PaidOnce(referrals[i], i, rewards))
    && (forall u: nat :: SumOf(rewards, u, false) == Earned(referrals, u) && SumOf(rewards, u, true) == 0)
  }

  /** Paying the bonus of a new referral. */
  lemma LedgerAfterReferral(referrals: seq<Referral>, rewards: seq<Reward>, r: Referral)
    requires Ledger(referrals, rewards)
    requires !r.registrationRewardGiven && r.status == Pending
    ensures Ledger(referrals + [r], rewards + [Reward(r.referee, |referrals|, RefereeBonus, REFEREE_BONUS, Awarded)])
  {
    var n := |referrals|;
    var paid := Reward(r.referee, n, RefereeBonus, REFEREE_BONUS, Awarded);
    forall i | 0 <= i <= n
      ensures PaidOnce((referrals + [r])[i], i, rewards + [paid])
    {
      forall kind: RewardKind ensures RewardCount(rewards + [paid], i, kind)
        == RewardCount(rewards, i, kind) + (if paid.referral == i && paid.kind == kind then 1 else 0)
      {
        CountAfterReward(rewards, paid, i, kind);
      }
      if i == n {
        forall kind: RewardKind ensures RewardCount(rewards, i, kind) == 0 {
          NoRewardYet(rewards, i, kind);
        }
      } else {
        assert PaidOnce(referrals[i], i, rewards);
      }
    }
    forall u: nat
      ensures SumOf(rewards + [paid], u, false) == Earned(referrals + [r], u) && SumOf(rewards + [paid], u, true) == 0
    {
      AfterReward(rewards, paid, u, false);
      AfterReward(rewards, paid, u, true);
      CountAfterAppend(referrals, r, u, Received);
      CountAfterAppend(referrals, r, u, MadeAndRegistered);
      CountAfterAppend(referrals, r, u, MadeAndCompleted);
    }
  }

  /** Raising one flag of a referral and paying the reward that belongs to it. */
  lemma LedgerAfterEvent(referrals: seq<Referral>, rewards: seq<Reward>, i: nat, m: Milestone)
    requires Ledger(referrals, rewards) && i < |referrals| && !Given(referrals[i], m)
    requires referrals[i].status == Completed <==> referrals[i].milestoneRewardGiven
    ensures Ledger(referrals[i := Mark(referrals[i], m)], rewards + [Payment(referrals[i], i, m)])
  {
    var r := Mark(referrals[i], m);
    var paid := Payment(referrals[i], i, m);
    var after := referrals[i := r];
    forall j | 0 <= j < |referrals|
      ensures PaidOnce(after[j], j, rewards + [paid])
    {
      assert PaidOnce(referrals[j], j, rewards);
      CountAfterReward(rewards, paid, j, RefereeBonus);
      CountAfterReward(rewards, paid, j, ReferralRegistration);
      CountAfterReward(rewards, paid, j, ReferralMilestone);
    }
    forall u: nat
      ensures SumOf(rewards + [paid], u, false) == Earned(after, u) && SumOf(rewards + [paid], u, true) == 0
    {
      AfterReward(rewards, paid, u, false);
      AfterReward(rewards, paid, u, true);
      CountAfterUpdate(referrals, i, r, u, Received);
      CountAfterUpdate(referrals, i, r, u, MadeAndRegistered);
      CountAfterUpdate(referrals, i, r, u, MadeAndCompleted);
    }
  }

  lemma {:induction false} CountsAgree(referrals: seq<Referral>, user: nat)
    requires forall i | 0 <= i < |referrals| :: referrals[i].registrationRewardGiven
    ensures CountOf(referrals, user, MadeAndRegistered) == CountOf(referrals, user, Made)
  {
    if referrals != [] {
      CountsAgree(referrals[..|referrals| - 1], user);
    }
  }

  // ---- The services ---------------------------------------------------------------------------

  class ReferralService {
    var users: seq<User>
    var referrals: seq<Referral>
    var rewards: seq<Reward>

    ghost predicate Valid()
      reads this
    {
      DistinctUsers(users) && Forest(users, referrals) && Ledger(referrals, rewards)
    }

    /** No registration is under way: each referral has paid its registration reward. */
    ghost predicate Settled()
      reads this
    {
      forall i | 0 <= i < |referrals| :: referrals[i].registrationRewardGiven
    }

    /** The referee is new and unreferred, and the referrer was saved earlier. */
    ghost predicate MayBeReferred(referrer: nat, referee: nat)
      reads this
    {
      && referrer < referee < |users| && users[referee].referredBy.None?
      && !users[referee].registrationCompleted && !users[referee].firstGameCompleted
    }

    constructor ()
      ensures Valid() && Settled() && users == [] && referrals == [] && rewards == []
    {
      users, referrals, rewards := [], [], [];
    }

    /** The first of ten random draws that no user has. */
    method GenerateUniqueReferralCode(draws: seq<string>) returns (code: Option<string>)
      requires |draws| == 10
      ensures code.None? <==> forall d | d in draws :: Taken(users, d)
      ensures code.Some? ==> code.value in draws && !Taken(users, code.value)
    {
      var attempts := 0;
      while attempts < MAX_CODE_ATTEMPTS
        invariant 0 <= attempts <= MAX_CODE_ATTEMPTS
        invariant forall i | 0 <= i < attempts :: Taken(users, draws[i])
      {
        var draw := draws[attempts];
        var existing := First(users, (u: User) => u.code == draw);
        if existing.None? {
          assert draw in draws && !Taken(users, draw);
          return Some(draw);
        }
        attempts := attempts + 1;
      }
      return None;
    }

    method ValidateReferralCode(code: string, newUser: nat) returns (referrer: Result<Option<nat>, Error>)
      ensures referrer == Ok(None) <==> code == ""
      ensures referrer == Err(InvalidCode) <==> code != "" && !Taken(users, code)
      ensures referrer == Err(OwnCode) ==> newUser < |users| && users[newUser].code == code
      ensures referrer == Err(AlreadyReferred) ==> exists i | 0 <= i < |referrals| :: referrals[i].referee == newUser
      ensures referrer.Err? ==> referrer.error in {InvalidCode, OwnCode, AlreadyReferred}
      ensures referrer.Ok? && referrer.value.Some? ==>
        var k := referrer.value.value;
        && k < |users| && users[k].code == code && k != newUser
        && forall i | 0 <= i < |referrals| :: referrals[i].referee != newUser
    {
      if code == "" {
        return Ok(None);
      }
      var found := First(users, (u: User) => u.code == code);
      if found.None? {
        return Err(InvalidCode);
      }
      if found.value == newUser {
        return Err(OwnCode);
      }
      var existing := First(referrals, (r: Referral) => r.referee == newUser);
      if existing.Some? {
        return Err(AlreadyReferred);
      }
      return Ok(Some(found.value));
    }

    /** Any two users are linked; forest and ledger are kept if the referee is new and the referrer earlier. */
    method CreateReferralRelationship(referrer: nat, referee: nat)
      requires referrer < |users| && referee < |users|
      modifies this
      ensures old(Valid() && MayBeReferred(referrer, referee)) ==> Valid()
      ensures users == old(users)[referee := old(users)[referee].(referredBy := Some(referrer))]
      ensures referrals == old(referrals) + [Referral(users[referrer].code, referrer, referee, Pending, false, false)]
      ensures rewards == old(rewards) + [Reward(referee, |old(referrals)|, RefereeBonus, REFEREE_BONUS, Awarded)]
    {
      var r := Referral(users[referrer].code, referrer, referee, Pending, false, false);
      if Valid() && MayBeReferred(referrer, referee) {
        LedgerAfterReferral(referrals, rewards, r);
        NewReferralKeepsForest(users, referrals, r);
      }
      rewards := rewards + [Reward(referee, |referrals|, RefereeBonus, REFEREE_BONUS, Awarded)];
      referrals := referrals + [r];
      users := users[referee := users[referee].(referredBy := Some(referrer))];
    }

    method HandleRegistrationComplete(user: nat)
      requires Valid()
      modifies this
      ensures Valid() && (old(Settled()) ==> Settled())
      ensures users == if user < |old(users)| then old(users)[user := old(users)[user].(registrationCompleted := true)]
                       else old(users)
      ensures match FindUnpaid(old(referrals), user, Registration)
        case None => referrals == old(referrals) && rewards == old(rewards)
        case Some(i) =>
          referrals == old(referrals)[i := old(referrals)[i].(registrationRewardGiven := true)]
          && rewards == old(rewards) + [Reward(referrals[i].referrer, i, ReferralRegistration, 500, Awarded)]
    {
      EventKeepsForest(users, referrals, user, Registration);
      var found := FindUnpaid(referrals, user, Registration);
      if user < |users| {
        users := users[user := users[user].(registrationCompleted := true)];
      }
      if found.Some? {
        var i := found.value;
        LedgerAfterEvent(referrals, rewards, i, Registration);
        rewards := rewards + [Reward(referrals[i].referrer, i, ReferralRegistration, REGISTRATION_REWARD, Awarded)];
        referrals := referrals[i := referrals[i].(registrationRewardGiven := true)];
      }
    }

    method HandleFirstGameComplete(user: nat)
      requires Valid()
      modifies this
      ensures Valid() && (old(Settled()) ==> Settled())
      ensures users == if user < |old(users)| then old(users)[user := old(users)[user].(firstGameCompleted := true)]
                       else old(users)
      ensures match FindUnpaid(old(referrals), user, FirstGame)
        case None => referrals == old(referrals) && rewards == old(rewards)
        case Some(i) =>
          referrals == old(referrals)[i := old(referrals)[i].(milestoneRewardGiven := true, status := Completed)]
          && rewards == old(rewards) + [Reward(referrals[i].referrer, i, ReferralMilestone, 1500, Awarded)]
    {
      EventKeepsForest(users, referrals, user, FirstGame);
      var found := FindUnpaid(referrals, user, FirstGame);
      if user < |users| {
        users := users[user := users[user].(firstGameCompleted := true)];
      }
      if found.Some? {
        var i := found.value;
        LedgerAfterEvent(referrals, rewards, i, FirstGame);
        rewards := rewards + [Reward(referrals[i].referrer, i, ReferralMilestone, MILESTONE_REWARD, Awarded)];
        referrals := referrals[i := referrals[i].(milestoneRewardGiven := true, status := Completed)];
      }
    }

    /** The checks and the insert that come first. */
    method SaveUser(email: string, username: string, draws: seq<string>)
      returns (result: Result<nat, Error>, ghost code: string)
      requires Valid() && |draws| == MAX_CODE_ATTEMPTS
      modifies `users
      ensures Valid()
      ensures result == Err(Conflict) <==> Known(old(users), email, username)
      ensures result == Err(NoUniqueCode) <==>
        !Known(old(users), email, username) && forall d | d in draws :: Taken(old(users), d)
      ensures result.Err? ==> result.error in {Conflict, NoUniqueCode} && users == old(users)
      ensures result.Ok? ==>
        && result.value == |old(users)| && code in draws && !Taken(old(users), code)
        && users == old(users) + [User(email, username, code, None, false, false)]
      ensures forall i | 0 <= i < |referrals| :: referrals[i].referee < |old(users)|
    {
      var existing := First(users, (u: User) => u.email == email || u.username == username);
      if existing.Some? {
        return Err(Conflict), "";
      }
      var newCode := GenerateUniqueReferralCode(draws);
      if newCode.None? {
        return Err(NoUniqueCode), "";
      }
      var user := User(email, username, newCode.value, None, false, false);
      NewUserKeepsForest(users, referrals, user);
      users := users + [user];
      return Ok(|users| - 1), newCode.value;
    }

    /** The referral of a user who was just saved, if a code was given. */
    method ApplyCode(referralCode: string, id: nat) returns (error: Option<Error>, ghost referrer: nat)
      requires Valid() && id == |users| - 1 && users[id].referredBy.None?
      requires !users[id].registrationCompleted && !users[id].firstGameCompleted
      requires forall i | 0 <= i < |referrals| :: referrals[i].referee < id
      modifies this
      ensures Valid()
      ensures error == Some(InvalidCode) <==> referralCode != "" && !Taken(old(users), referralCode)
      ensures error == Some(OwnCode) <==> referralCode != "" && old(users)[id].code == referralCode
      ensures error.Some? ==> error.value in {InvalidCode, OwnCode}
      ensures error.Some? || referralCode == "" ==>
        users == old(users) && referrals == old(referrals) && rewards == old(rewards)
      ensures error.None? && referralCode != "" ==>
        && referrer < id && old(users)[referrer].code == referralCode
        && users == old(users)[id := old(users)[id].(referredBy := Some(referrer))]
        && referrals == old(referrals) + [Referral(referralCode, referrer, id, Pending, false, false)]
        && rewards == old(rewards) + [Reward(id, |old(referrals)|, RefereeBonus, REFEREE_BONUS, Awarded)]
    {
      referrer := 0;
      if referralCode != "" {
        var found := ValidateReferralCode(referralCode, id);
        if found.Err? {
          return Some(found.error), referrer;
        }
        if found.value.Some? {
          referrer := found.value.value;
          CreateReferralRelationship(found.value.value, id);
        }
      }
      error := None;
    }

    /** What follows the insert: the referral, then the completion of the registration. */
    method Complete(referralCode: string, id: nat) returns (error: Option<Error>, ghost referrer: nat)
      requires Valid() && Settled() && id == |users| - 1 && users[id].referredBy.None?
      requires !users[id].registrationCompleted && !users[id].firstGameCompleted
      requires forall i | 0 <= i < |referrals| :: referrals[i].referee < id
      modifies this
      ensures Valid() && Settled()
      ensures error == Some(InvalidCode) <==> referralCode != "" && !Taken(old(users), referralCode)
      ensures error == Some(OwnCode) <==> referralCode != "" && old(users)[id].code == referralCode
      ensures error.Some? ==> error.value in {InvalidCode, OwnCode}
      ensures error.Some? ==> users == old(users)
      ensures error.Some? || referralCode == "" ==> referrals == old(referrals) && rewards == old(rewards)
      ensures error.None? && referralCode == "" ==>
        users == old(users)[id := old(users)[id].(registrationCompleted := true)]
      ensures error.None? && referralCode != "" ==>
        && referrer < id && old(users)[referrer].code == referralCode
        && users == old(users)[id := old(users)[id].(referredBy := Some(referrer), registrationCompleted := true)]
        && Referred(old(referrals), referrals, old(rewards), rewards, referralCode, referrer, id)
    {
      error, referrer := ApplyCode(referralCode, id);
      if error.Some? {
        return;
      }
      OnlyTheNewReferral(old(referrals), referrals, id);
      ghost var r := Referral(referralCode, referrer, id, Pending, false, false);
      UpdateLast(old(referrals), r, Mark(r, Registration));
      HandleRegistrationComplete(id);
      if referralCode != "" {
        assert referrals == old(referrals) + [Mark(r, Registration)];
        assert forall i | 0 <= i < |old(referrals)| :: referrals[i] == old(referrals)[i];
        assert users == old(users)[id := old(users)[id].(referredBy := Some(referrer), registrationCompleted := true)];
      }
    }

    /**
     Registration saves the user before it looks at the referral code, so a bad code is refused but
     leaves the user behind, without a referral and with the registration not marked complete.
     */
    method Register(email: string, username: string, referralCode: string, draws: seq<string>)
      returns (result: Result<nat, Error>, ghost code: string, ghost referrer: nat)
      requires Valid() && Settled() && |draws| == MAX_CODE_ATTEMPTS
      modifies this
      ensures Valid() && Settled()
      ensures result == Err(Conflict) <==> Known(old(users), email, username)
      ensures result == Err(NoUniqueCode) <==>
        !Known(old(users), email, username) && forall d | d in draws :: Taken(old(users), d)
      ensures result.Err? ==> result.error in {Conflict, NoUniqueCode, InvalidCode, OwnCode}
      ensures result.Err? || referralCode == "" ==> referrals == old(referrals) && rewards == old(rewards)
      ensures result == Err(Conflict) || result == Err(NoUniqueCode)
        ==> users == old(users)
      ensures !(result == Err(Conflict) || result == Err(NoUniqueCode))
        ==> code in draws && !Taken(old(users), code)
      ensures result == Err(InvalidCode) || result == Err(OwnCode)
        ==> referralCode != "" && !Taken(old(users), referralCode)
            && users == old(users) + [User(email, username, code, None, false, false)]
            && (result == Err(OwnCode) <==> code == referralCode)
      ensures result.Ok? ==> result.value == |old(users)|
      ensures result.Ok? && referralCode == ""
        ==> users == old(users) + [User(email, username, code, None, true, false)]
      ensures result.Ok? && referralCode != ""
        ==> referrer < |old(users)| && old(users)[referrer].code == referralCode
            && users == old(users) + [User(email, username, code, Some(referrer), true, false)]
            && Referred(old(referrals), referrals, old(rewards), rewards, referralCode, referrer, |old(users)|)
    {
      result, code := SaveUser(email, username, draws);
      referrer := 0;
      if result.Err? {
        return;
      }
      ghost var saved := users[result.value];
      var error: Option<Error>;
      error, referrer := Complete(referralCode, result.value);
      UpdateLast(old(users), saved, saved.(registrationCompleted := true));
      UpdateLast(old(users), saved, saved.(referredBy := Some(referrer), registrationCompleted := true));
      if error.Some? {
        result := Err(error.value);
      }
    }

    /** The rewards paid out agree with the graph, however often the handlers were called. */
    method GetReferralStats(user: nat) returns (stats: Result<Stats, Error>)
      requires Valid()
      ensures stats == Err(UserNotFound) <==> user >= |users|
      ensures stats.Ok? ==>
        && stats.value.totalReferrals == |MadeBy(referrals, user)|
        && stats.value.completedReferrals == |CompletedBy(referrals, user)|
        && stats.value.pendingRewards == 0 && stats.value.code == users[user].code
      ensures stats.Ok? && Settled() ==>
        stats.value.totalRewards == (if users[user].referredBy.Some? then 1000 else 0)
          + 500 * stats.value.totalReferrals + 1500 * stats.value.completedReferrals
    {
      if user >= |users| {
        return Err(UserNotFound);
      }
      if Settled() {
        CountsAgree(referrals, user);
      }
      CountsAreSizes(referrals, user);
      return Ok(Stats(CountOf(referrals, user, Made), CountOf(referrals, user, MadeAndCompleted),
                      SumOf(rewards, user, false), SumOf(rewards, user, true), users[user].code));
    }
  }

  predicate Known(users: seq<User>, email: string, username: string) {
    exists u | 0 <= u < |users| :: users[u].email == email || users[u].username == username
  }

  /** One referral was added, with the referee's bonus and the referrer's registration reward. */
  ghost predicate Referred(referrals: seq<Referral>, referrals': seq<Referral>,
                           rewards: seq<Reward>, rewards': seq<Reward>,
                           code: string, referrer: nat, referee: nat)
  {
    && referrals' == referrals + [Referral(code, referrer, referee, Pending, true, false)]
    && rewards' == rewards + [Reward(referee, |referrals|, RefereeBonus, 1000, Awarded),
                              Reward(referrer, |referrals|, ReferralRegistration, 500, Awarded)]
  }

  /** A handler that has paid finds nothing to pay when it is called again. */
  lemma SecondCallPaysNothing(users: seq<User>, referrals: seq<Referral>, user: nat, m: Milestone)
    requires Forest(users, referrals)
    ensures match FindUnpaid(referrals, user, m)
            case None => true
            case Some(i) => FindUnpaid(referrals[i := Mark(referrals[i], m)], user, m).None?
  {
  }
}
