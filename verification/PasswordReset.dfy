/** The two-stage password reset: a requested key is activated once, and the activated key changes the
    password once. Times are whole seconds. */
module PasswordReset {
  import opened Common

  datatype TokenKind = EmailVerification | ResetActivate | ResetComplete

  type Key = nat

  datatype Token = Token(user: UserId, key: Key, checked: bool, kind: TokenKind, createdAt: int)

  /** What the outside sees happen. */
  datatype Event =
    | Requested(key: Key, user: UserId, at: int)
    | Activated(key: Key, user: UserId, at: int)
    | Changed(key: Key, user: UserId, password: string, at: int)

  datatype Validation = NotFound | Ambiguous | Valid(index: nat, user: UserId, checkedAlready: bool)

  class Service {
    const lifetime: nat
    var tokens: seq<Token>
    var passwords: map<UserId, string>
    ghost var log: seq<Event>

    constructor (lifetime: nat, passwords: map<UserId, string>)
      ensures this.lifetime == lifetime && this.passwords == passwords && tokens == [] && log == []
      ensures Sound(tokens, log, lifetime)
    {
      this.lifetime := lifetime;
      this.passwords := passwords;
      tokens, log := [], [];
    }

    /** Finds the one token of the key that is still alive and marks it as checked. */
    method Validate(key: Key, kind: TokenKind, now: int) returns (v: Validation)
      modifies this`tokens
      ensures (v.Valid? && !v.checkedAlready) <==> Usable(old(tokens), key, kind, now, lifetime)
      ensures v.NotFound? <==> forall i :: !IsMatch(old(tokens), i, key, kind, now, lifetime)
      ensures v.Valid? ==>
        && IsMatch(old(tokens), v.index, key, kind, now, lifetime)
        && v.user == old(tokens)[v.index].user && v.checkedAlready == old(tokens)[v.index].checked
        && forall i :: IsMatch(old(tokens), i, key, kind, now, lifetime) ==> i == v.index
      ensures tokens == if v.Valid? then Mark(old(tokens), v.index) else old(tokens)
    {
      v := NotFound;
      for i := 0 to |tokens|
        invariant tokens == old(tokens)
        invariant v.NotFound? ==> forall j :: IsMatch(tokens, j, key, kind, now, lifetime) ==> j >= i
        invariant v.Valid? ==>
          && v.index < i && IsMatch(tokens, v.index, key, kind, now, lifetime)
          && v.user == tokens[v.index].user && v.checkedAlready == tokens[v.index].checked
          && forall j :: IsMatch(tokens, j, key, kind, now, lifetime) ==> j == v.index || j >= i
        invariant v.Ambiguous? ==> exists j, k ::
          j != k && IsMatch(tokens, j, key, kind, now, lifetime) && IsMatch(tokens, k, key, kind, now, lifetime)
      {
        if IsMatch(tokens, i, key, kind, now, lifetime) {
          v := if v.NotFound? then Valid(i, tokens[i].user, tokens[i].checked) else Ambiguous;
        }
      }
      if v.Valid? && !v.checkedAlready {
        tokens := tokens[v.index := tokens[v.index].(checked := true)];
      }
    }

    /** A request draws a fresh key; throttled requests and unknown addresses create nothing. */
    method Request(user: UserId, throttled: bool, key: Key, now: int)
      requires Sound(tokens, log, lifetime) && NotBefore(log, now)
      requires forall i :: 0 <= i < |tokens| ==> tokens[i].key != key
      modifies this
      ensures Sound(tokens, log, lifetime)
      ensures passwords == old(passwords)
      ensures user in passwords && !throttled ==>
        && tokens == old(tokens) + [Token(user, key, false, ResetActivate, now)]
        && log == old(log) + [Requested(key, user, now)]
      ensures user !in passwords || throttled ==> tokens == old(tokens) && log == old(log)
    {
      if user !in passwords || throttled {
        return;
      }
      RequestSound(tokens, log, lifetime, user, key, now);
      tokens := tokens + [Token(user, key, false, ResetActivate, now)];
      log := log + [Requested(key, user, now)];
    }

    method Activate(key: Key, now: int) returns (ok: bool)
      requires Sound(tokens, log, lifetime) && NotBefore(log, now)
      modifies this
      ensures Sound(tokens, log, lifetime)
      ensures passwords == old(passwords)
      ensures ok <==> Usable(old(tokens), key, ResetActivate, now, lifetime)
      ensures ok ==> exists i ::
        && IsMatch(old(tokens), i, key, ResetActivate, now, lifetime)
        && tokens == Mark(old(tokens), i) + [Token(old(tokens)[i].user, key, false, ResetComplete, now)]
        && log == old(log) + [Activated(key, old(tokens)[i].user, now)]
      ensures !ok ==> log == old(log) && tokens == old(tokens)
    {
      hide Sound, Usable, NotBefore, Mark;
      ghost var before := tokens;
      var v := Validate(key, ResetActivate, now);
      if !v.Valid? || v.checkedAlready {
        if v.Valid? {
          MarkAgain(before, v.index);
        }
        return false;
      }
      ActivateSound(before, log, lifetime, v.index, now);
      tokens := tokens + [Token(v.user, key, false, ResetComplete, now)];
      log := log + [Activated(key, v.user, now)];
      ok := true;
    }

    method Complete(key: Key, password: string, now: int) returns (ok: bool)
      requires Sound(tokens, log, lifetime) && NotBefore(log, now)
      modifies this
      ensures Sound(tokens, log, lifetime)
      ensures ok <==> Usable(old(tokens), key, ResetComplete, now, lifetime)
      ensures ok ==> exists i ::
        && IsMatch(old(tokens), i, key, ResetComplete, now, lifetime)
        && tokens == Mark(old(tokens), i)
        && passwords == old(passwords)[old(tokens)[i].user := password]
        && log == old(log) + [Changed(key, old(tokens)[i].user, password, now)]
      ensures !ok ==> log == old(log) && tokens == old(tokens) && passwords == old(passwords)
    {
      hide Sound, Usable, NotBefore, Mark;
      ghost var before := tokens;
      var v := Validate(key, ResetComplete, now);
      if !v.Valid? || v.checkedAlready {
        if v.Valid? {
          MarkAgain(before, v.index);
        }
        return false;
      }
      CompleteSound(before, log, lifetime, v.index, password, now);
      passwords := passwords[v.user := password];
      log := log + [Changed(key, v.user, password, now)];
      ok := true;
    }
  }

  /** The token of the key and kind is still alive. */
  predicate IsMatch(tokens: seq<Token>, i: int, key: Key, kind: TokenKind, now: int, lifetime: nat) {
    0 <= i < |tokens| && tokens[i].key == key && tokens[i].kind == kind && tokens[i].createdAt >= now - lifetime
  }

  /** Exactly one token of the key is alive, and it has not been checked yet. */
  ghost predicate Usable(tokens: seq<Token>, key: Key, kind: TokenKind, now: int, lifetime: nat) {
    exists i :: IsMatch(tokens, i, key, kind, now, lifetime) && !tokens[i].checked
                && forall j :: IsMatch(tokens, j, key, kind, now, lifetime) ==> j == i
  }

  function Mark(tokens: seq<Token>, i: nat): seq<Token>
    requires i < |tokens|
  {
    tokens[i := tokens[i].(checked := true)]
  }

  predicate NotBefore(log: seq<Event>, now: int) {
    forall i :: 0 <= i < |log| ==> log[i].at <= now
  }

  // ----- The invariant -----

  /** The event is logged once: no other position holds an event of the same stage for the key. */
  predicate Once(log: seq<Event>) {
    forall i, j :: 0 <= i < j < |log| && log[i].key == log[j].key ==>
      && !(log[i].Requested? && log[j].Requested?)
      && !(log[i].Activated? && log[j].Activated?)
      && !(log[i].Changed? && log[j].Changed?)
  }

  /** A token is backed by the event that created it. */
  predicate Backed(t: Token, log: seq<Event>) {
    match t.kind
    case EmailVerification => true
    case ResetActivate => Requested(t.key, t.user, t.createdAt) in log
    case ResetComplete => Activated(t.key, t.user, t.createdAt) in log
  }

  /** An activation follows its request within the lifetime, and a change its activation. */
  predicate Grounded(log: seq<Event>, n: nat, lifetime: nat)
    requires n < |log|
  {
    match log[n]
    case Requested(_, _, _) => true
    case Activated(key, user, at) =>
      exists i :: 0 <= i < n && log[i].Requested? && log[i].key == key && log[i].user == user
                  && log[i].at <= at <= log[i].at + lifetime
    case Changed(key, user, _, at) =>
      exists i :: 0 <= i < n && log[i].Activated? && log[i].key == key && log[i].user == user
                  && log[i].at <= at <= log[i].at + lifetime
  }

  /** Each key has at most one token of a kind; an unchecked one has not been used, and a checked
      activation token was. */
  ghost predicate Sound(tokens: seq<Token>, log: seq<Event>, lifetime: nat) {
    && (forall i, j :: 0 <= i < j < |tokens| ==> tokens[i].key != tokens[j].key || tokens[i].kind != tokens[j].kind)
    && (forall i :: 0 <= i < |tokens| ==> Backed(tokens[i], log))
    && (forall n :: 0 <= n < |log| ==> HasToken(log[n], tokens))
    && (forall n :: 0 <= n < |log| ==> Grounded(log, n, lifetime))
    && Once(log)
    && (forall m, n :: 0 <= m <= n < |log| ==> log[m].at <= log[n].at)
  }

  /** The event left its token behind: the requested one, the activated one, or the checked one. */
  predicate HasToken(e: Event, tokens: seq<Token>) {
    match e
    case Requested(key, _, _) =>
      exists i :: 0 <= i < |tokens| && tokens[i].key == key && tokens[i].kind == ResetActivate
    case Activated(key, _, _) =>
      exists i :: 0 <= i < |tokens| && tokens[i].key == key && tokens[i].kind == ResetActivate && tokens[i].checked
    case Changed(key, _, _, _) =>
      exists i :: 0 <= i < |tokens| && tokens[i].key == key && tokens[i].kind == ResetComplete && tokens[i].checked
  }

  lemma HasTokenKept(e: Event, before: seq<Token>, after: seq<Token>)
    requires HasToken(e, before) && |before| <= |after|
    requires forall i :: 0 <= i < |before| ==>
      after[i].key == before[i].key && after[i].kind == before[i].kind && (before[i].checked ==> after[i].checked)
    ensures HasToken(e, after)
  {
  }

  lemma GroundedKept(log: seq<Event>, e: Event, n: nat, lifetime: nat)
    requires n < |log| && Grounded(log, n, lifetime)
    ensures Grounded(log + [e], n, lifetime)
  {
    var longer := log + [e];
    assert longer[n] == log[n];
    match log[n] {
      case Requested(_, _, _) =>
      case Activated(key, user, at) =>
        var i :| 0 <= i < n && log[i].Requested? && log[i].key == key && log[i].user == user
                 && log[i].at <= at <= log[i].at + lifetime;
        assert longer[i] == log[i];
      case Changed(key, user, _, at) =>
        var i :| 0 <= i < n && log[i].Activated? && log[i].key == key && log[i].user == user
                 && log[i].at <= at <= log[i].at + lifetime;
        assert longer[i] == log[i];
    }
  }

  /** Logging one more event: it must have its token, be grounded, be the first of its stage for the key,
      and not lie in the past. */
  lemma ExtendSound(before: seq<Token>, tokens: seq<Token>, log: seq<Event>, lifetime: nat, e: Event)
    requires Sound(before, log, lifetime) && |before| <= |tokens| && NotBefore(log, e.at)
    requires forall i :: 0 <= i < |before| ==>
      && tokens[i].key == before[i].key && tokens[i].kind == before[i].kind && tokens[i].user == before[i].user
      && tokens[i].createdAt == before[i].createdAt && (before[i].checked ==> tokens[i].checked)
    requires forall i, j :: 0 <= i < j < |tokens| ==> tokens[i].key != tokens[j].key || tokens[i].kind != tokens[j].kind
    requires forall i :: |before| <= i < |tokens| ==> Backed(tokens[i], log + [e])
    requires HasToken(e, tokens) && Grounded(log + [e], |log|, lifetime)
    requires forall n :: 0 <= n < |log| && log[n].key == e.key ==>
      !(log[n].Requested? && e.Requested?) && !(log[n].Activated? && e.Activated?) && !(log[n].Changed? && e.Changed?)
    ensures Sound(tokens, log + [e], lifetime)
  {
    hide HasToken, Grounded, Backed;
    var longer := log + [e];
    forall i | 0 <= i < |before| ensures Backed(tokens[i], longer) {
      BackedKept(before[i], tokens[i], log, e);
    }
    forall n | 0 <= n < |log| ensures HasToken(log[n], tokens) && Grounded(longer, n, lifetime) {
      HasTokenKept(log[n], before, tokens);
      GroundedKept(log, e, n, lifetime);
    }
    assert forall n :: 0 <= n < |log| ==> longer[n] == log[n];
    assert longer[|log|] == e;
    OnceExtended(log, e);
  }

  lemma BackedKept(before: Token, after: Token, log: seq<Event>, e: Event)
    requires Backed(before, log) && after == before.(checked := after.checked)
    ensures Backed(after, log + [e])
  {
  }

  lemma OnceExtended(log: seq<Event>, e: Event)
    requires Once(log)
    requires forall n :: 0 <= n < |log| && log[n].key == e.key ==>
      !(log[n].Requested? && e.Requested?) && !(log[n].Activated? && e.Activated?) && !(log[n].Changed? && e.Changed?)
    ensures Once(log + [e])
  {
  }

  lemma RequestSound(tokens: seq<Token>, log: seq<Event>, lifetime: nat, user: UserId, key: Key, now: int)
    requires Sound(tokens, log, lifetime) && NotBefore(log, now)
    requires forall i :: 0 <= i < |tokens| ==> tokens[i].key != key
    ensures Sound(tokens + [Token(user, key, false, ResetActivate, now)], log + [Requested(key, user, now)], lifetime)
  {
    var e, t := Requested(key, user, now), Token(user, key, false, ResetActivate, now);
    assert (tokens + [t])[|tokens|] == t;
    assert e in log + [e];
    forall n | 0 <= n < |log| && log[n].key == key ensures !log[n].Requested? {
      assert HasToken(log[n], tokens);
    }
    ExtendSound(tokens, tokens + [t], log, lifetime, e);
  }

  /** Marking a token that was checked already changes nothing. */
  lemma MarkAgain(tokens: seq<Token>, i: nat)
    requires i < |tokens| && tokens[i].checked
    ensures Mark(tokens, i) == tokens
  {
  }

  /** While the activation token is unchecked its key has neither been activated nor got a second token. */
  lemma UncheckedNotActivated(tokens: seq<Token>, log: seq<Event>, lifetime: nat, i: nat)
    requires Sound(tokens, log, lifetime) && i < |tokens| && tokens[i].kind == ResetActivate && !tokens[i].checked
    ensures forall m :: 0 <= m < |log| && log[m].key == tokens[i].key ==> !log[m].Activated?
    ensures forall j :: 0 <= j < |tokens| && tokens[j].key == tokens[i].key ==> tokens[j].kind != ResetComplete
  {
    forall m | 0 <= m < |log| && log[m].key == tokens[i].key ensures !log[m].Activated? {
      assert HasToken(log[m], tokens);
    }
    forall j | 0 <= j < |tokens| && tokens[j].key == tokens[i].key ensures tokens[j].kind != ResetComplete {
      assert Backed(tokens[j], log);
    }
  }

  lemma ActivateSound(tokens: seq<Token>, log: seq<Event>, lifetime: nat, i: nat, now: int)
    requires Sound(tokens, log, lifetime) && NotBefore(log, now) && i < |tokens|
    requires tokens[i].kind == ResetActivate && !tokens[i].checked && tokens[i].createdAt >= now - lifetime
    ensures Sound(Mark(tokens, i) + [Token(tokens[i].user, tokens[i].key, false, ResetComplete, now)],
                  log + [Activated(tokens[i].key, tokens[i].user, now)], lifetime)
  {
    var old', key, user := tokens[i], tokens[i].key, tokens[i].user;
    var e, t := Activated(key, user, now), Token(user, key, false, ResetComplete, now);
    var after, longer := Mark(tokens, i) + [t], log + [e];
    assert after[i] == tokens[i].(checked := true) && after[|tokens|] == t;
    assert longer[|log|] == e && e in longer;
    assert Backed(old', log);
    var n :| 0 <= n < |log| && log[n] == Requested(key, user, old'.createdAt);
    assert longer[n] == log[n];
    assert Grounded(longer, |log|, lifetime);
    UncheckedNotActivated(tokens, log, lifetime, i);
    ExtendSound(tokens, after, log, lifetime, e);
  }

  lemma CompleteSound(tokens: seq<Token>, log: seq<Event>, lifetime: nat, i: nat, password: string, now: int)
    requires Sound(tokens, log, lifetime) && NotBefore(log, now) && i < |tokens|
    requires tokens[i].kind == ResetComplete && !tokens[i].checked && tokens[i].createdAt >= now - lifetime
    ensures Sound(Mark(tokens, i), log + [Changed(tokens[i].key, tokens[i].user, password, now)], lifetime)
  {
    var key, user := tokens[i].key, tokens[i].user;
    var e := Changed(key, user, password, now);
    var longer := log + [e];
    assert longer[|log|] == e;
    assert Mark(tokens, i)[i] == tokens[i].(checked := true);
    assert Backed(tokens[i], log);
    var n :| 0 <= n < |log| && log[n] == Activated(key, user, tokens[i].createdAt);
    assert longer[n] == log[n];
    assert Grounded(longer, |log|, lifetime);
    forall m | 0 <= m < |log| && log[m].key == key ensures !log[m].Changed? {
      assert HasToken(log[m], tokens);
    }
    ExtendSound(tokens, Mark(tokens, i), log, lifetime, e);
  }

  // ----- Whole runs -----

  datatype Call =
    | RequestCall(user: UserId, throttled: bool, key: Key, now: int)
    | ActivateCall(key: Key, now: int)
    | CompleteCall(key: Key, password: string, now: int)

  /** The passwords after the changes of the log. */
  function Applied(passwords: map<UserId, string>, log: seq<Event>): (r: map<UserId, string>)
    ensures passwords.Keys <= r.Keys
  {
    if log == [] then passwords
    else
      var before, last := Applied(passwords, log[..|log| - 1]), log[|log| - 1];
      if last.Changed? then before[last.user := last.password] else before
  }

  lemma AppliedMore(passwords: map<UserId, string>, log: seq<Event>, e: Event)
    ensures Applied(passwords, log + [e])
         == if e.Changed? then Applied(passwords, log)[e.user := e.password] else Applied(passwords, log)
  {
    assert (log + [e])[..|log|] == log;
  }

  // ----- The service as a function of the calls -----

  datatype State = State(tokens: seq<Token>, passwords: map<UserId, string>, log: seq<Event>)

  ghost function Now(service: Service): State
    reads service
  {
    State(service.tokens, service.passwords, service.log)
  }

  predicate Fresh(tokens: seq<Token>, key: Key) {
    forall i :: 0 <= i < |tokens| ==> tokens[i].key != key
  }

  /** The token that makes the call succeed. */
  ghost function TheToken(tokens: seq<Token>, key: Key, kind: TokenKind, now: int, lifetime: nat): (i: nat)
    requires Usable(tokens, key, kind, now, lifetime)
    ensures i < |tokens| && IsMatch(tokens, i, key, kind, now, lifetime) && !tokens[i].checked
    ensures forall j :: IsMatch(tokens, j, key, kind, now, lifetime) ==> j == i
  {
    var i :| IsMatch(tokens, i, key, kind, now, lifetime) && !tokens[i].checked
             && forall j :: IsMatch(tokens, j, key, kind, now, lifetime) ==> j == i;
    i
  }

  ghost function After(s: State, lifetime: nat, call: Call): State {
    match call
    case RequestCall(user, throttled, key, now) =>
      if user in s.passwords && !throttled && Fresh(s.tokens, key)
      then State(s.tokens + [Token(user, key, false, ResetActivate, now)], s.passwords,
                 s.log + [Requested(key, user, now)])
      else s
    case ActivateCall(key, now) =>
      if Usable(s.tokens, key, ResetActivate, now, lifetime) then
        var i := TheToken(s.tokens, key, ResetActivate, now, lifetime);
        var user := s.tokens[i].user;
        State(Mark(s.tokens, i) + [Token(user, key, false, ResetComplete, now)], s.passwords,
              s.log + [Activated(key, user, now)])
      else s
    case CompleteCall(key, password, now) =>
      if Usable(s.tokens, key, ResetComplete, now, lifetime) then
        var i := TheToken(s.tokens, key, ResetComplete, now, lifetime);
        var user := s.tokens[i].user;
        State(Mark(s.tokens, i), s.passwords[user := password], s.log + [Changed(key, user, password, now)])
      else s
  }

  ghost function AfterAll(s: State, lifetime: nat, calls: seq<Call>): State {
    if calls == [] then s
    else After(AfterAll(s, lifetime, calls[..|calls| - 1]), lifetime, calls[|calls| - 1])
  }

  /** One call; a request draws a fresh key. */
  method Perform(service: Service, call: Call, ghost initial: map<UserId, string>)
    requires Sound(service.tokens, service.log, service.lifetime) && NotBefore(service.log, call.now)
    requires service.passwords == Applied(initial, service.log)
    modifies service
    ensures Sound(service.tokens, service.log, service.lifetime)
    ensures service.passwords == Applied(initial, service.log)
    ensures service.log == old(service.log)
         || exists e: Event :: e.at == call.now && service.log == old(service.log) + [e]
    ensures Now(service) == After(old(Now(service)), service.lifetime, call)
  {
    hide Sound, Usable, Mark, Applied, NotBefore;
    ghost var log := service.log;
    match call {
      case RequestCall(user, throttled, key, now) =>
        var isFresh := Fresh(service.tokens, key);
        if isFresh {
          service.Request(user, throttled, key, now);
        }
      case ActivateCall(key, now) => var _ := service.Activate(key, now);
      case CompleteCall(key, password, now) => var _ := service.Complete(key, password, now);
    }
    if |service.log| > |log| {
      AppliedMore(initial, log, service.log[|log|]);
    }
  }

  /** Any sequence of calls on a clock that does not run backwards, requests drawing fresh keys. */
  method RunCalls(service: Service, calls: seq<Call>)
    requires service.tokens == [] && service.log == []
    requires forall i, j :: 0 <= i < j < |calls| ==> calls[i].now <= calls[j].now
    modifies service
    ensures Sound(service.tokens, service.log, service.lifetime)
    ensures service.passwords == Applied(old(service.passwords), service.log)
    ensures Now(service) == AfterAll(old(Now(service)), service.lifetime, calls)
  {
    assert Sound([], [], service.lifetime);
    assert calls[..0] == [];
    hide Sound, Applied, After;
    NothingApplied(service.passwords);
    for k := 0 to |calls|
      invariant Sound(service.tokens, service.log, service.lifetime)
      invariant service.passwords == Applied(old(service.passwords), service.log)
      invariant forall j :: k <= j < |calls| ==> NotBefore(service.log, calls[j].now)
      invariant Now(service) == AfterAll(old(Now(service)), service.lifetime, calls[..k])
    {
      Perform(service, calls[k], old(service.passwords));
      assert calls[..k + 1][..k] == calls[..k];
    }
    assert calls[..|calls|] == calls;
  }

  lemma NothingApplied(passwords: map<UserId, string>)
    ensures Applied(passwords, []) == passwords
  {
  }

  /** A password that differs from the initial one was set by the change of some key of that user. */
  lemma {:induction false} ChangedBy(passwords: map<UserId, string>, log: seq<Event>, user: UserId) returns (n: nat)
    requires user in passwords && Applied(passwords, log)[user] != passwords[user]
    ensures n < |log| && log[n].Changed? && log[n].user == user && log[n].password == Applied(passwords, log)[user]
  {
    var init, last := log[..|log| - 1], log[|log| - 1];
    if last.Changed? && last.user == user {
      n := |log| - 1;
    } else {
      n := ChangedBy(passwords, init, user);
    }
  }

  /** A key changes a password at most once, after exactly one request and exactly one activation of that
      key, for the user it was issued to, and no later than twice the lifetime after the request. */
  lemma ResetKeyUsedOnceAndInTime(tokens: seq<Token>, log: seq<Event>, lifetime: nat, n: nat)
    returns (request: nat, activation: nat)
    requires Sound(tokens, log, lifetime) && n < |log| && log[n].Changed?
    ensures request < activation < n && log[request].Requested? && log[activation].Activated?
    ensures log[request].key == log[activation].key == log[n].key
    ensures log[request].user == log[activation].user == log[n].user
    ensures log[n].at <= log[activation].at + lifetime <= log[request].at + 2 * lifetime
    ensures forall m :: 0 <= m < |log| && log[m].key == log[n].key ==>
      && (log[m].Changed? ==> m == n)
      && (log[m].Activated? ==> m == activation)
      && (log[m].Requested? ==> m == request)
  {
    assert Grounded(log, n, lifetime);
    activation :| 0 <= activation < n && log[activation].Activated? && log[activation].key == log[n].key
                  && log[activation].user == log[n].user
                  && log[activation].at <= log[n].at <= log[activation].at + lifetime;
    assert Grounded(log, activation, lifetime);
    request :| 0 <= request < activation && log[request].Requested? && log[request].key == log[activation].key
               && log[request].user == log[activation].user
               && log[request].at <= log[activation].at <= log[request].at + lifetime;
    assert Once(log);
    hide Sound, Grounded;
    forall m | 0 <= m < |log| && log[m].key == log[n].key
      ensures (log[m].Changed? ==> m == n) && (log[m].Activated? ==> m == activation)
      ensures log[m].Requested? ==> m == request
    {
      assert m < n || m == n || m > n;
      assert m < activation || m == activation || m > activation;
      assert m < request || m == request || m > request;
    }
  }

  // ----- When a reset succeeds -----

  /** The tokens of the key are exactly the given ones. */
  ghost predicate TokensOf(tokens: seq<Token>, key: Key, ts: set<Token>) {
    forall t: Token :: t in tokens && t.key == key <==> t in ts
  }

  /** A call of the key succeeds exactly while its token is unchecked and no older than the lifetime. */
  lemma UsableIff(tokens: seq<Token>, log: seq<Event>, lifetime: nat, key: Key, kind: TokenKind, now: int,
                  ts: set<Token>)
    requires Sound(tokens, log, lifetime) && TokensOf(tokens, key, ts)
    ensures Usable(tokens, key, kind, now, lifetime)
       <==> exists t :: t in ts && t.kind == kind && !t.checked && now <= t.createdAt + lifetime
    ensures Usable(tokens, key, kind, now, lifetime) ==>
      tokens[TheToken(tokens, key, kind, now, lifetime)] in ts
  {
    hide Backed, HasToken, Grounded, Once;
    if t :| t in ts && t.kind == kind && !t.checked && now <= t.createdAt + lifetime {
      assert t in tokens;
      var i :| 0 <= i < |tokens| && tokens[i] == t;
      assert IsMatch(tokens, i, key, kind, now, lifetime);
    }
    if Usable(tokens, key, kind, now, lifetime) {
      assert tokens[TheToken(tokens, key, kind, now, lifetime)] in tokens;
    }
  }

  lemma MarkedTokens(tokens: seq<Token>, i: nat, t: Token)
    requires i < |tokens|
    ensures t in Mark(tokens, i) <==>
      t == tokens[i].(checked := true) || exists j :: 0 <= j < |tokens| && j != i && tokens[j] == t
  {
    var marked := Mark(tokens, i);
    assert marked[i] == tokens[i].(checked := true);
    if j :| 0 <= j < |tokens| && j != i && tokens[j] == t {
      assert marked[j] == t;
    }
  }

  /** Calls on other keys leave the tokens of the key alone. */
  lemma OtherCallKeeps(s: State, lifetime: nat, call: Call, key: Key, ts: set<Token>)
    requires TokensOf(s.tokens, key, ts) && call.key != key
    ensures TokensOf(After(s, lifetime, call).tokens, key, ts)
  {
    hide Usable;
    var tokens := After(s, lifetime, call).tokens;
    forall t: Token | t.key == key ensures t in tokens <==> t in s.tokens {
      match call {
        case RequestCall(_, _, _, _) =>
        case ActivateCall(k, now) =>
          if Usable(s.tokens, k, ResetActivate, now, lifetime) {
            MarkedTokens(s.tokens, TheToken(s.tokens, k, ResetActivate, now, lifetime), t);
          }
        case CompleteCall(k, _, now) =>
          if Usable(s.tokens, k, ResetComplete, now, lifetime) {
            MarkedTokens(s.tokens, TheToken(s.tokens, k, ResetComplete, now, lifetime), t);
          }
      }
    }
  }

  lemma AfterSound(s: State, lifetime: nat, call: Call)
    requires Sound(s.tokens, s.log, lifetime) && NotBefore(s.log, call.now)
    ensures Sound(After(s, lifetime, call).tokens, After(s, lifetime, call).log, lifetime)
    ensures NotBefore(After(s, lifetime, call).log, call.now)
    ensures s.passwords.Keys <= After(s, lifetime, call).passwords.Keys
  {
    hide Sound, Usable, Mark;
    match call {
      case RequestCall(user, _, key, now) =>
        if Fresh(s.tokens, key) {
          RequestSound(s.tokens, s.log, lifetime, user, key, now);
        }
      case ActivateCall(key, now) =>
        if Usable(s.tokens, key, ResetActivate, now, lifetime) {
          ActivateSound(s.tokens, s.log, lifetime, TheToken(s.tokens, key, ResetActivate, now, lifetime), now);
        }
      case CompleteCall(key, password, now) =>
        if Usable(s.tokens, key, ResetComplete, now, lifetime) {
          var i := TheToken(s.tokens, key, ResetComplete, now, lifetime);
          CompleteSound(s.tokens, s.log, lifetime, i, password, now);
        }
    }
  }

  /** Calls on other keys, in order, between two moments. */
  predicate Meanwhile(from: int, calls: seq<Call>, to: int, key: Key) {
    && from <= to
    && (forall i :: 0 <= i < |calls| ==> from <= calls[i].now <= to && calls[i].key != key)
    && (forall i, j :: 0 <= i <= j < |calls| ==> calls[i].now <= calls[j].now)
  }

  lemma {:induction false} MeanwhileKeeps(s: State, lifetime: nat, from: int, calls: seq<Call>, to: int, key: Key,
                                          ts: set<Token>)
    requires Sound(s.tokens, s.log, lifetime) && NotBefore(s.log, from) && TokensOf(s.tokens, key, ts)
    requires Meanwhile(from, calls, to, key)
    ensures var s' := AfterAll(s, lifetime, calls);
      && Sound(s'.tokens, s'.log, lifetime) && NotBefore(s'.log, to) && TokensOf(s'.tokens, key, ts)
      && s.passwords.Keys <= s'.passwords.Keys
    decreases |calls|
  {
    hide Sound, After, TokensOf;
    if calls != [] {
      var init, last := calls[..|calls| - 1], calls[|calls| - 1];
      MeanwhileKeeps(s, lifetime, from, init, last.now, key, ts);
      AfterSound(AfterAll(s, lifetime, init), lifetime, last);
      OtherCallKeeps(AfterAll(s, lifetime, init), lifetime, last, key, ts);
    }
  }

  /** A request of a known user with a fresh key leaves the key with one token. */
  lemma Requesting(s: State, lifetime: nat, user: UserId, key: Key, t: int)
    requires Sound(s.tokens, s.log, lifetime) && NotBefore(s.log, t) && user in s.passwords && Fresh(s.tokens, key)
    ensures TokensOf(After(s, lifetime, RequestCall(user, false, key, t)).tokens, key,
                     {Token(user, key, false, ResetActivate, t)})
  {
  }

  /** Activating the key succeeds up to the lifetime after the request, both ends included, and never later. */
  lemma Activating(s: State, lifetime: nat, user: UserId, key: Key, t: int, u: int)
    requires Sound(s.tokens, s.log, lifetime) && TokensOf(s.tokens, key, {Token(user, key, false, ResetActivate, t)})
    ensures var s' := After(s, lifetime, ActivateCall(key, u));
      if u <= t + lifetime then
        && s'.log == s.log + [Activated(key, user, u)] && s'.passwords == s.passwords
        && TokensOf(s'.tokens, key,
                    {Token(user, key, true, ResetActivate, t), Token(user, key, false, ResetComplete, u)})
      else s' == s
  {
    hide Sound, Usable, Mark;
    var requested := Token(user, key, false, ResetActivate, t);
    UsableIff(s.tokens, s.log, lifetime, key, ResetActivate, u, {requested});
    if u <= t + lifetime {
      assert requested in {requested};
      var i := TheToken(s.tokens, key, ResetActivate, u, lifetime);
      var s' := After(s, lifetime, ActivateCall(key, u));
      OnlyAt(s.tokens, s.log, lifetime, i);
      forall x: Token | x.key == key
        ensures x in s'.tokens
           <==> x == Token(user, key, true, ResetActivate, t) || x == Token(user, key, false, ResetComplete, u)
      {
        MarkedTokens(s.tokens, i, x);
      }
    }
  }

  /** In a sound state a token stands at one position only. */
  lemma OnlyAt(tokens: seq<Token>, log: seq<Event>, lifetime: nat, i: nat)
    requires Sound(tokens, log, lifetime) && i < |tokens|
    ensures forall j :: 0 <= j < |tokens| && tokens[j] == tokens[i] ==> j == i
  {
  }

  /** Completing it succeeds up to the lifetime after the activation, and never later or without one. */
  lemma Completing(s: State, lifetime: nat, user: UserId, key: Key, password: string, u: int, v: int, ts: set<Token>)
    requires Sound(s.tokens, s.log, lifetime) && TokensOf(s.tokens, key, ts)
    requires forall t :: t in ts && t.kind == ResetComplete ==> t == Token(user, key, false, ResetComplete, u)
    ensures var s' := After(s, lifetime, CompleteCall(key, password, v));
      if Token(user, key, false, ResetComplete, u) in ts && v <= u + lifetime then
        s'.passwords == s.passwords[user := password] && s'.log == s.log + [Changed(key, user, password, v)]
      else s' == s
  {
    hide Sound, Usable, Mark, TokensOf;
    UsableIff(s.tokens, s.log, lifetime, key, ResetComplete, v, ts);
  }

  /** A reset from request to new password, with any calls on other keys in between: the activation is
      accepted exactly up to one lifetime after the request, and the password is set exactly when, besides,
      the completion comes up to one lifetime after the activation. */
  lemma ResetSucceedsIff(s: State, lifetime: nat, user: UserId, key: Key, password: string, t: int, u: int, v: int,
                         first: seq<Call>, second: seq<Call>)
    requires Sound(s.tokens, s.log, lifetime) && NotBefore(s.log, t) && user in s.passwords && Fresh(s.tokens, key)
    requires Meanwhile(t, first, u, key) && Meanwhile(u, second, v, key)
    ensures var requested := AfterAll(After(s, lifetime, RequestCall(user, false, key, t)), lifetime, first);
      var activated := After(requested, lifetime, ActivateCall(key, u));
      var before := AfterAll(activated, lifetime, second);
      var completed := After(before, lifetime, CompleteCall(key, password, v));
      && (if u <= t + lifetime then activated.log == requested.log + [Activated(key, user, u)]
          else activated == requested)
      && (if u <= t + lifetime && v <= u + lifetime then completed.passwords == before.passwords[user := password]
          else completed == before)
  {
    hide Sound, After, AfterAll, TokensOf;
    var s1 := After(s, lifetime, RequestCall(user, false, key, t));
    AfterSound(s, lifetime, RequestCall(user, false, key, t));
    Requesting(s, lifetime, user, key, t);
    var ts := {Token(user, key, false, ResetActivate, t)};
    MeanwhileKeeps(s1, lifetime, t, first, u, key, ts);
    var s2 := AfterAll(s1, lifetime, first);
    var s3 := After(s2, lifetime, ActivateCall(key, u));
    AfterSound(s2, lifetime, ActivateCall(key, u));
    Activating(s2, lifetime, user, key, t, u);
    if u <= t + lifetime {
      ts := {Token(user, key, true, ResetActivate, t), Token(user, key, false, ResetComplete, u)};
    }
    MeanwhileKeeps(s3, lifetime, u, second, v, key, ts);
    Completing(AfterAll(s3, lifetime, second), lifetime, user, key, password, u, v, ts);
  }
}
