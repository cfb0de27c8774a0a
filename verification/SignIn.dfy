/** The local-admin sign-in throttle: attempts counted per address and per email
    on the shared limiter, before the password is checked. */
module SignIn {
  import opened Options
  import opened RateLimit

  const PER_ADDRESS: nat := 5
  const PER_EMAIL: nat := 10
  const WINDOW_MS: nat := 15 * 60000

  datatype Lock = ByAddress | ByEmail

  function AddressKey(address: string): string {
    "login-attempt:address:" + address
  }

  function EmailKey(email: string): string {
    "login-attempt:email:" + email
  }

  lemma KeysAreApart(address: string, email: string, other: string)
    ensures AddressKey(address) != EmailKey(email)
    ensures AddressKey(address) == AddressKey(other) ==> address == other
    ensures EmailKey(email) == EmailKey(other) ==> email == other
  {
    assert AddressKey(address)[14] == 'a' && EmailKey(email)[14] == 'e';
    assert AddressKey(address)[22..] == address && AddressKey(other)[22..] == other;
    assert EmailKey(email)[20..] == email && EmailKey(other)[20..] == other;
  }

  /** The lock that refuses an attempt, if any: the address's own, or the email's
      for an address that already has an attempt in its window. */
  function LockOf(store: Store, now: int, address: string, email: string): Option<Lock> {
    if CountAt(store, now, AddressKey(address)) >= PER_ADDRESS then Some(ByAddress)
    else if CountAt(store, now, EmailKey(email)) >= PER_EMAIL && CountAt(store, now, AddressKey(address)) > 0
    then Some(ByEmail)
    else None
  }

  /** A refused attempt counts only on the key that refused it. */
  function StoreAfterAttempt(store: Store, now: int, address: string, email: string): Store {
    var aKey, eKey := AddressKey(address), EmailKey(email);
    match LockOf(store, now, address, email)
    case Some(ByAddress) => StoreAfterHit(store, now, aKey, PER_ADDRESS, WINDOW_MS)
    case Some(ByEmail) => StoreAfterHit(store, now, eKey, PER_EMAIL, WINDOW_MS)
    case None =>
      StoreAfterHit(StoreAfterHit(store, now, aKey, PER_ADDRESS, WINDOW_MS), now, eKey, PER_EMAIL, WINDOW_MS)
  }

  /** Whether this attempt is logged as the one that met the lock: the hit that refuses
      it is the first past the limit in its window. */
  function MeetsLock(store: Store, now: int, address: string, email: string): bool {
    match LockOf(store, now, address, email)
    case Some(ByAddress) => VerdictOfHit(store, now, AddressKey(address), PER_ADDRESS).firstExceedance
    case Some(ByEmail) => VerdictOfHit(store, now, EmailKey(email), PER_EMAIL).firstExceedance
    case None => false
  }

  class Throttle {
    const limiter: Limiter

    constructor (limiter: Limiter)
      ensures this.limiter == limiter
    {
      this.limiter := limiter;
    }

    method Take(now: int, key: string, limit: nat) returns (first: bool)
      modifies limiter
      ensures limiter.store == StoreAfterHit(old(limiter.store), now, key, limit, WINDOW_MS)
      ensures first == VerdictOfHit(old(limiter.store), now, key, limit).firstExceedance
    {
      var v := limiter.Hit(now, key, limit, WINDOW_MS);
      first := v.firstExceedance;
    }

    method Admit(now: int, address: string, email: string) returns (lock: Option<Lock>, first: bool)
      modifies limiter
      ensures lock == LockOf(old(limiter.store), now, address, email)
      ensures first == MeetsLock(old(limiter.store), now, address, email)
      ensures limiter.store == StoreAfterAttempt(old(limiter.store), now, address, email)
    {
      var aKey, eKey := AddressKey(address), EmailKey(email);
      var fromAddress := limiter.Count(now, aKey);
      if fromAddress >= PER_ADDRESS {
        first := Take(now, aKey, PER_ADDRESS);
        return Some(ByAddress), first;
      }
      var onEmail := limiter.Count(now, eKey);
      if onEmail >= PER_EMAIL && fromAddress > 0 {
        first := Take(now, eKey, PER_EMAIL);
        return Some(ByEmail), first;
      }
      var _ := Take(now, aKey, PER_ADDRESS);
      var _ := Take(now, eKey, PER_EMAIL);
      return None, false;
    }

    /** After the password check of an admitted attempt: a sign-in clears both
        counts, anything else leaves the limiter alone. */
    method Verified(address: string, email: string, valid: bool)
      modifies limiter
      ensures limiter.store == if valid then old(limiter.store) - {AddressKey(address)} - {EmailKey(email)} else old(limiter.store)
    {
      if valid {
        limiter.Clear(AddressKey(address));
        limiter.Clear(EmailKey(email));
      }
    }
  }

  // ------------------------------------------------------------------------ runs

  /** Attempts, failed password checks and purges, in any interleaving, with no
      successful sign-in. */
  datatype Event =
    | Attempt(time: int, address: string, email: string)
    | Failed(time: int, address: string, email: string)
    | Timer(time: int)

  function After(store: Store, e: Event): Store {
    match e
    case Attempt(now, address, email) => StoreAfterAttempt(store, now, address, email)
    case Failed(_, _, _) => store
    case Timer(now) => Purged(store, now)
  }

  ghost predicate Ordered(es: seq<Event>, now: int)
    decreases |es|
  {
    es == [] || (now <= es[0].time && Ordered(es[1..], es[0].time))
  }

  predicate AdmitsAddress(store: Store, e: Event, address: string, until: int) {
    e.Attempt? && e.address == address && e.time < until && LockOf(store, e.time, e.address, e.email) == None
  }

  predicate AdmitsEmail(store: Store, e: Event, email: string, until: int) {
    e.Attempt? && e.email == email && e.time < until && LockOf(store, e.time, e.address, e.email) == None
  }

  /** Attempts admitted from an address before `until`. */
  function AdmittedFrom(store: Store, es: seq<Event>, address: string, until: int): nat
    decreases |es|
  {
    if es == [] then 0
    else (if AdmitsAddress(store, es[0], address, until) then 1 else 0) + AdmittedFrom(After(store, es[0]), es[1..], address, until)
  }

  /** Attempts admitted on an email before `until`. */
  function AdmittedOn(store: Store, es: seq<Event>, email: string, until: int): nat
    decreases |es|
  {
    if es == [] then 0
    else (if AdmitsEmail(store, es[0], email, until) then 1 else 0) + AdmittedOn(After(store, es[0]), es[1..], email, until)
  }

  lemma {:induction false} NoneAfterwards(store: Store, now: int, es: seq<Event>, address: string, email: string, until: int)
    requires Ordered(es, now) && (es != [] ==> es[0].time >= until)
    ensures AdmittedFrom(store, es, address, until) == 0 && AdmittedOn(store, es, email, until) == 0
    decreases |es|
  {
    hide After, LockOf;
    if es != [] {
      NoneAfterwards(After(store, es[0]), es[0].time, es[1..], address, email, until);
    }
  }

  // ----------------------------------------------------------- what a step keeps

  /** No event before its end moves a window's end, or lowers its count. */
  lemma WindowEndStays(store: Store, e: Event, key: string)
    requires key in store && e.time < store[key].resetTime
    ensures key in After(store, e) && After(store, e)[key].resetTime == store[key].resetTime
    ensures After(store, e)[key].count >= store[key].count
  {
  }

  /** An admitted attempt is counted on its address's window and its email's. */
  lemma AdmittedIsCounted(store: Store, now: int, address: string, email: string)
    requires LockOf(store, now, address, email) == None
    ensures var after := StoreAfterAttempt(store, now, address, email);
            && Live(after, AddressKey(address), now) && Live(after, EmailKey(email), now)
            && after[AddressKey(address)].count == CountAt(store, now, AddressKey(address)) + 1
            && after[EmailKey(email)].count == CountAt(store, now, EmailKey(email)) + 1
            && (!Live(store, AddressKey(address), now) ==> after[AddressKey(address)].resetTime == now + WINDOW_MS)
            && (!Live(store, EmailKey(email), now) ==> after[EmailKey(email)].resetTime == now + WINDOW_MS)
  {
    KeysAreApart(address, email, address);
  }

  // ----------------------------------------------------------------- per address

  /** In an address's window, the attempts still admitted are at most what is
      left of its five. */
  lemma {:induction false} AddressWindow(store: Store, now: int, es: seq<Event>, address: string)
    requires Ordered(es, now) && AddressKey(address) in store
    ensures AdmittedFrom(store, es, address, store[AddressKey(address)].resetTime)
         <= Surplus(PER_ADDRESS, store[AddressKey(address)].count)
    decreases |es|
  {
    hide After, StoreAfterAttempt;
    var key := AddressKey(address);
    var until := store[key].resetTime;
    if es != [] {
      if es[0].time < until {
        WindowEndStays(store, es[0], key);
        if AdmitsAddress(store, es[0], address, until) {
          AdmittedIsCounted(store, es[0].time, address, es[0].email);
          AfterAttempt(store, es[0]);
        }
        AddressWindow(After(store, es[0]), es[0].time, es[1..], address);
      } else {
        NoneAfterwards(store, now, es, address, "", until);
      }
    }
  }

  lemma AfterAttempt(store: Store, e: Event)
    requires e.Attempt?
    ensures After(store, e) == StoreAfterAttempt(store, e.time, e.address, e.email)
  {
  }

  /** At most five attempts are admitted from an address in a window, counted
      from the attempt that opens it. */
  lemma AtMostFivePerAddress(store: Store, es: seq<Event>, address: string)
    requires es != [] && es[0].Attempt? && es[0].address == address && Ordered(es, es[0].time)
    requires !Live(store, AddressKey(address), es[0].time)
    ensures AdmittedFrom(store, es, address, es[0].time + 15 * 60000) <= 5
  {
    hide After, StoreAfterAttempt;
    AdmittedIsCounted(store, es[0].time, address, es[0].email);
    AfterAttempt(store, es[0]);
    AddressWindow(After(store, es[0]), es[0].time, es[1..], address);
  }

  /** Attempts from an address before `until`, but for those its emails' lock refuses. */
  function Deciding(store: Store, es: seq<Event>, address: string, until: int): nat
    decreases |es|
  {
    if es == [] then 0
    else
      var e := es[0];
      (if e.Attempt? && e.address == address && e.time < until && LockOf(store, e.time, e.address, e.email) != Some(ByEmail)
       then 1 else 0)
      + Deciding(After(store, e), es[1..], address, until)
  }

  function Least(x: nat, y: nat): nat {
    if x <= y then x else y
  }

  /** An attempt that a lock refuses counts on no other key. */
  lemma RefusedByEmailKeepsAddress(store: Store, e: Event, address: string)
    requires e.Attempt? && LockOf(store, e.time, e.address, e.email) == Some(ByEmail) && AddressKey(address) in store
    ensures After(store, e)[AddressKey(address)] == store[AddressKey(address)]
  {
    KeysAreApart(address, e.email, address);
  }

  lemma OthersKeepAddress(store: Store, e: Event, address: string)
    requires !(e.Attempt? && e.address == address)
    requires AddressKey(address) in store && e.time < store[AddressKey(address)].resetTime
    ensures AddressKey(address) in After(store, e) && After(store, e)[AddressKey(address)] == store[AddressKey(address)]
  {
    if e.Attempt? {
      KeysAreApart(address, e.email, e.address);
    }
  }

  lemma {:induction false} NoneDeciding(store: Store, now: int, es: seq<Event>, address: string, until: int)
    requires Ordered(es, now) && (es != [] ==> es[0].time >= until)
    ensures Deciding(store, es, address, until) == 0
    decreases |es|
  {
    hide After, LockOf;
    if es != [] {
      NoneDeciding(After(store, es[0]), es[0].time, es[1..], address, until);
    }
  }

  /** In an address's window exactly as many attempts are admitted as are left of its
      five, or all there are that no email's lock refuses. */
  lemma {:induction false} AddressWindowExactly(store: Store, now: int, es: seq<Event>, address: string)
    requires Ordered(es, now) && AddressKey(address) in store
    ensures var until := store[AddressKey(address)].resetTime;
            AdmittedFrom(store, es, address, until)
            == Least(Surplus(5, store[AddressKey(address)].count), Deciding(store, es, address, until))
    decreases |es|
  {
    hide After, StoreAfterAttempt;
    var key := AddressKey(address);
    var until := store[key].resetTime;
    if es != [] {
      var e := es[0];
      if e.time < until {
        WindowEndStays(store, e, key);
        if e.Attempt? && e.address == address {
          if LockOf(store, e.time, address, e.email) == None {
            AdmittedIsCounted(store, e.time, address, e.email);
            AfterAttempt(store, e);
          } else if LockOf(store, e.time, address, e.email) == Some(ByEmail) {
            RefusedByEmailKeepsAddress(store, e, address);
          }
        } else {
          OthersKeepAddress(store, e, address);
        }
        AddressWindowExactly(After(store, e), e.time, es[1..], address);
      } else {
        NoneAfterwards(store, now, es, address, "", until);
        NoneDeciding(store, now, es, address, until);
      }
    }
  }

  // ------------------------------------------------------------------- per email

  /** Of these addresses, those whose own window may end before `until`. */
  function Clean(store: Store, addresses: set<string>, until: int): set<string> {
    set a | a in addresses && !(AddressKey(a) in store && store[AddressKey(a)].resetTime >= until)
  }

  ghost predicate AttemptsFrom(es: seq<Event>, email: string, addresses: set<string>) {
    forall e | e in es && e.Attempt? && e.email == email :: e.address in addresses
  }

  lemma SmallerSet(a: set<string>, b: set<string>, x: string)
    requires a <= b
    ensures |a| <= |b| && (x in b && x !in a ==> |a| < |b|)
  {
    assert b == a + (b - a) && |b| == |a| + |b - a|;
    if x in b && x !in a {
      assert x in b - a;
    }
  }

  /** A step never makes an address clean again before the email's window ends. */
  lemma CleanShrinks(store: Store, e: Event, addresses: set<string>, until: int)
    requires e.time < until
    ensures Clean(After(store, e), addresses, until) <= Clean(store, addresses, until)
  {
    forall a | a in addresses && AddressKey(a) in store && store[AddressKey(a)].resetTime >= until
      ensures AddressKey(a) in After(store, e) && After(store, e)[AddressKey(a)].resetTime >= until
    {
      WindowEndStays(store, e, AddressKey(a));
    }
  }

  /** What is still possible on an email: its ten, then one attempt from each
      address that is clean. */
  function Potential(store: Store, email: string, addresses: set<string>, until: int): nat
    requires EmailKey(email) in store
  {
    Surplus(PER_EMAIL, store[EmailKey(email)].count) + |Clean(store, addresses, until)|
  }

  lemma StepSpendsPotential(store: Store, e: Event, email: string, addresses: set<string>)
    requires EmailKey(email) in store && e.time < store[EmailKey(email)].resetTime <= e.time + WINDOW_MS
    requires e.Attempt? && e.email == email ==> e.address in addresses
    ensures var until := store[EmailKey(email)].resetTime;
            && EmailKey(email) in After(store, e) && After(store, e)[EmailKey(email)].resetTime == until
            && (if AdmitsEmail(store, e, email, until) then 1 else 0) + Potential(After(store, e), email, addresses, until)
               <= Potential(store, email, addresses, until)
  {
    hide After, StoreAfterAttempt, Clean;
    var until := store[EmailKey(email)].resetTime;
    WindowEndStays(store, e, EmailKey(email));
    CleanShrinks(store, e, addresses, until);
    SmallerSet(Clean(After(store, e), addresses, until), Clean(store, addresses, until), if e.Attempt? then e.address else "");
    if AdmitsEmail(store, e, email, until) {
      AdmittedIsCounted(store, e.time, e.address, email);
      AfterAttempt(store, e);
      if store[EmailKey(email)].count >= PER_EMAIL {
        NoLongerClean(store, After(store, e), e.time, e.address, addresses, until);
      }
    }
  }

  lemma NoLongerClean(store: Store, after: Store, now: int, address: string, addresses: set<string>, until: int)
    requires address in addresses && !Live(store, AddressKey(address), now) && now < until <= now + WINDOW_MS
    requires AddressKey(address) in after && after[AddressKey(address)].resetTime == now + WINDOW_MS
    ensures address in Clean(store, addresses, until) && address !in Clean(after, addresses, until)
  {
  }

  lemma {:induction false} EmailWindow(store: Store, now: int, es: seq<Event>, email: string, addresses: set<string>)
    requires Ordered(es, now) && AttemptsFrom(es, email, addresses)
    requires EmailKey(email) in store && store[EmailKey(email)].resetTime <= now + WINDOW_MS
    ensures AdmittedOn(store, es, email, store[EmailKey(email)].resetTime)
         <= Potential(store, email, addresses, store[EmailKey(email)].resetTime)
    decreases |es|
  {
    hide After, Potential, AdmitsEmail;
    var until := store[EmailKey(email)].resetTime;
    if es != [] {
      if es[0].time < until {
        StepSpendsPotential(store, es[0], email, addresses);
        EmailWindow(After(store, es[0]), es[0].time, es[1..], email, addresses);
      } else {
        NoneAfterwards(store, now, es, "", email, until);
      }
    }
  }

  /** In an email's window, counted from the attempt that opens it, at most ten
      attempts and one per distinct address are admitted. */
  lemma AtMostTenAndOnePerAddress(store: Store, es: seq<Event>, email: string, addresses: set<string>)
    requires es != [] && es[0].Attempt? && es[0].email == email && Ordered(es, es[0].time)
    requires !Live(store, EmailKey(email), es[0].time) && AttemptsFrom(es, email, addresses)
    requires LockOf(store, es[0].time, es[0].address, email) == None
    ensures AdmittedOn(store, es, email, es[0].time + 15 * 60000) <= 10 + |addresses|
  {
    hide After, StoreAfterAttempt, LockOf, Clean;
    AdmittedIsCounted(store, es[0].time, es[0].address, email);
    AfterAttempt(store, es[0]);
    var next := After(store, es[0]);
    EmailWindow(next, es[0].time, es[1..], email, addresses);
    CleanIsPart(next, addresses, es[0].time + WINDOW_MS);
  }

  lemma CleanIsPart(store: Store, addresses: set<string>, until: int)
    ensures |Clean(store, addresses, until)| <= |addresses|
  {
    SmallerSet(Clean(store, addresses, until), addresses, "");
  }

  // ---------------------------------------------------------- refusals and locks

  /** A refused attempt is counted on the key that refuses it: it changes no other
      window, and not even that one's end. */
  lemma RefusalKeepsEveryEnd(store: Store, now: int, address: string, email: string)
    requires LockOf(store, now, address, email).Some?
    ensures var after := StoreAfterAttempt(store, now, address, email);
            var key := if LockOf(store, now, address, email) == Some(ByAddress) then AddressKey(address) else EmailKey(email);
            && after.Keys == store.Keys && key in store
            && (forall k | k in store :: after[k].resetTime == store[k].resetTime)
            && (forall k | k in store && k != key :: after[k] == store[k])
            && after[key].count == store[key].count + 1
  {
  }

  /** Below both limits every attempt is admitted. */
  lemma BelowBothLimits(store: Store, now: int, address: string, email: string)
    requires CountAt(store, now, AddressKey(address)) < 5 && CountAt(store, now, EmailKey(email)) < 10
    ensures LockOf(store, now, address, email) == None
  {
  }

  ghost predicate AllBefore(es: seq<Event>, until: int) {
    forall e | e in es :: e.time < until
  }

  function AfterAll(store: Store, es: seq<Event>): Store
    decreases |es|
  {
    if es == [] then store else AfterAll(After(store, es[0]), es[1..])
  }

  /** A locked address stays locked through any run of attempts, and the lock
      ends when its window does: no attempt, refused or not, postpones it. */
  lemma {:induction false} LockEndsOnTime(store: Store, es: seq<Event>, address: string, email: string, now: int)
    requires AddressKey(address) in store && store[AddressKey(address)].count >= PER_ADDRESS
    requires AllBefore(es, store[AddressKey(address)].resetTime)
    ensures var until := store[AddressKey(address)].resetTime;
            && (now < until ==> LockOf(AfterAll(store, es), now, address, email) == Some(ByAddress))
            && (now >= until ==> LockOf(AfterAll(store, es), now, address, email) == None)
    decreases |es|
  {
    hide After;
    if es != [] {
      WindowEndStays(store, es[0], AddressKey(address));
      LockEndsOnTime(After(store, es[0]), es[1..], address, email, now);
    }
  }

  /** A locked email lets in exactly the addresses with no attempt of their own,
      through any run of attempts, and nobody is refused for it once its window
      has ended. */
  lemma {:induction false} EmailLockEndsOnTime(store: Store, es: seq<Event>, address: string, email: string, now: int)
    requires EmailKey(email) in store && store[EmailKey(email)].count >= PER_EMAIL
    requires AllBefore(es, store[EmailKey(email)].resetTime)
    ensures var until, after := store[EmailKey(email)].resetTime, AfterAll(store, es);
            && (now < until ==>
                  LockOf(after, now, address, email)
                  == var n := CountAt(after, now, AddressKey(address));
                     if n == 0 then None else if n < 5 then Some(ByEmail) else Some(ByAddress))
            && (now >= until ==> LockOf(after, now, address, email) != Some(ByEmail))
    decreases |es|
  {
    hide After;
    if es != [] {
      WindowEndStays(store, es[0], EmailKey(email));
      EmailLockEndsOnTime(After(store, es[0]), es[1..], address, email, now);
    }
  }

  // ------------------------------------------------------------ locks in the log

  /** A window is marked exactly when it has been taken past its limit. */
  ghost predicate MarkedPast(store: Store) {
    && (forall a | AddressKey(a) in store :: store[AddressKey(a)].loggedExceeded <==> store[AddressKey(a)].count > 5)
    && (forall m | EmailKey(m) in store :: store[EmailKey(m)].loggedExceeded <==> store[EmailKey(m)].count > 10)
  }

  lemma HitMarks(store: Store, now: int, key: string, limit: nat)
    requires MarkedPast(store) && limit > 0
    requires (exists a :: key == AddressKey(a)) ==> limit == 5
    requires (exists m :: key == EmailKey(m)) ==> limit == 10
    ensures MarkedPast(StoreAfterHit(store, now, key, limit, WINDOW_MS))
  {
  }

  /** No event leaves a window marked otherwise; an empty store has none. */
  lemma MarksStay(store: Store, e: Event)
    requires MarkedPast(store)
    ensures MarkedPast(After(store, e)) && MarkedPast(map[])
  {
    if e.Attempt? {
      var a, m := AddressKey(e.address), EmailKey(e.email);
      forall x, y
        ensures AddressKey(x) != EmailKey(y)
      {
        KeysAreApart(x, y, x);
      }
      hide AddressKey, EmailKey, MarkedPast;
      HitMarks(store, e.time, a, 5);
      HitMarks(store, e.time, m, 10);
      HitMarks(StoreAfterHit(store, e.time, a, 5, WINDOW_MS), e.time, m, 10);
    }
  }

  /** A refusal is logged as the lock if and only if exactly the limit was counted
      before it. */
  lemma LockIsMetAtTheLimit(store: Store, now: int, address: string, email: string)
    requires MarkedPast(store)
    ensures MeetsLock(store, now, address, email)
       <==> match LockOf(store, now, address, email)
            case Some(ByAddress) => CountAt(store, now, AddressKey(address)) == 5
            case Some(ByEmail) => CountAt(store, now, EmailKey(email)) == 10
            case None => false
  {
  }

  /** Attempts from an address before `until` that its own lock refuses. */
  function RefusedFrom(store: Store, es: seq<Event>, address: string, until: int): nat
    decreases |es|
  {
    if es == [] then 0
    else
      var e := es[0];
      (if e.Attempt? && e.address == address && e.time < until && LockOf(store, e.time, e.address, e.email) == Some(ByAddress)
       then 1 else 0)
      + RefusedFrom(After(store, e), es[1..], address, until)
  }

  /** Those of them that are logged as the lock. */
  function LocksLogged(store: Store, es: seq<Event>, address: string, until: int): nat
    decreases |es|
  {
    if es == [] then 0
    else
      var e := es[0];
      (if e.Attempt? && e.address == address && e.time < until && LockOf(store, e.time, e.address, e.email) == Some(ByAddress)
          && MeetsLock(store, e.time, e.address, e.email) then 1 else 0)
      + LocksLogged(After(store, e), es[1..], address, until)
  }

  /** In an address's window the lock is logged exactly once if it refuses anything,
      and never again once it has been met. */
  lemma {:induction false} AddressLockIsLoggedOnce(store: Store, now: int, es: seq<Event>, address: string)
    requires MarkedPast(store) && Ordered(es, now) && AddressKey(address) in store
    ensures var until := store[AddressKey(address)].resetTime;
            LocksLogged(store, es, address, until)
            == if store[AddressKey(address)].count <= 5 && RefusedFrom(store, es, address, until) > 0 then 1 else 0
    decreases |es|
  {
    hide After, MarkedPast, MeetsLock;
    var key := AddressKey(address);
    var until := store[key].resetTime;
    if es != [] {
      var e := es[0];
      MarksStay(store, e);
      if e.time < until {
        WindowEndStays(store, e, key);
        AddressLockIsLoggedOnce(After(store, e), e.time, es[1..], address);
        if e.Attempt? && e.address == address {
          LockIsMetAtTheLimit(store, e.time, address, e.email);
          CountedOn(store, e);
        } else {
          NotCountedOn(store, e, address);
        }
      } else {
        NoneRefusedAfterwards(store, now, es, address, until);
      }
    }
  }

  lemma {:induction false} NoneRefusedAfterwards(store: Store, now: int, es: seq<Event>, address: string, until: int)
    requires Ordered(es, now) && (es != [] ==> es[0].time >= until)
    ensures RefusedFrom(store, es, address, until) == 0 && LocksLogged(store, es, address, until) == 0
    decreases |es|
  {
    hide After, LockOf, MeetsLock;
    if es != [] {
      NoneRefusedAfterwards(After(store, es[0]), es[0].time, es[1..], address, until);
    }
  }

  /** A live window's attempt is counted on it, unless the email's lock refuses it. */
  lemma CountedOn(store: Store, e: Event)
    requires e.Attempt? && Live(store, AddressKey(e.address), e.time)
    ensures var key := AddressKey(e.address);
            key in After(store, e)
            && After(store, e)[key].count
               == store[key].count + if LockOf(store, e.time, e.address, e.email) == Some(ByEmail) then 0 else 1
  {
    KeysAreApart(e.address, e.email, e.address);
  }

  lemma NotCountedOn(store: Store, e: Event, address: string)
    requires Live(store, AddressKey(address), e.time) && !(e.Attempt? && e.address == address)
    ensures AddressKey(address) in After(store, e) && After(store, e)[AddressKey(address)] == store[AddressKey(address)]
  {
    if e.Attempt? {
      KeysAreApart(address, e.email, e.address);
    }
  }

  /** An email's lock is not always logged: an address that is let in past the limit
      takes the mark, and the refusals after it are logged as throttled only. */
  lemma EmailLockCanGoUnlogged(now: int, a: string, b: string, email: string)
    requires a != b
    ensures var until := now + 1;
            var store: Store := map[EmailKey(email) := Entry(10, until, false), AddressKey(a) := Entry(1, until, false)];
            var next := StoreAfterAttempt(store, now, b, email);
            && MarkedPast(store)
            && LockOf(store, now, b, email) == None
            && LockOf(next, now, a, email) == Some(ByEmail) && !MeetsLock(next, now, a, email)
  {
    KeysAreApart(a, email, b);
    KeysAreApart(b, email, a);
    forall x
      ensures AddressKey(x) != EmailKey(email) && AddressKey(a) != EmailKey(x)
    {
      KeysAreApart(x, email, a);
      KeysAreApart(a, x, b);
    }
  }
}
