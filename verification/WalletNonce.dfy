/** The wallet nonce protocol of apps/api/src/auth: nonces issued into a shared store, and verify
    requests that each run as a chain of store calls. One step of the machine is one store call;
    requests interleave freely, keys may expire at any time, and a call's reply may be lost before
    or after the store carried it out. */
module WalletNonce {
  import opened StrKey

  datatype Value = Nonce(nonce: string) | Counter(n: nat)

  function NonceKey(wallet: string): string {
    "auth:nonce:" + wallet
  }

  function AttemptsKey(wallet: string): string {
    "auth:nonce:attempts:" + wallet
  }

  /** Where a verify request stands: the store call it makes next, or how it ended. */
  datatype Phase =
    | Lookup
    | Counting
    | SettingTtl(attempts: nat)
    | DeletingNonce
    | DeletingCounter
    | Consuming
    | ClearingCounter
    | Done
    | Rejected

  datatype Request = Request(wallet: string, nonce: string, signature: string, phase: Phase)

  datatype Jwt = Jwt(wallet: string, request: nat)

  datatype State = State(store: map<string, Value>, requests: map<nat, Request>, jwts: seq<Jwt>,
                         issued: map<string, string>,  // every nonce ever stored, with its wallet
                         spent: map<string, nat>)      // every nonce consumed, with the request that did it

  const START := State(map[], map[], [], map[], map[])

  /** How a store call goes: carried out and answered, not carried out, or carried out unanswered. */
  datatype Reply = Answered | LostBefore | LostAfter

  datatype Event =
    | Issue(wallet: string, nonce: string)
    | Begin(id: nat, wallet: string, nonce: string, signature: string)
    | Advance(id: nat, reply: Reply)
    | Expire(key: string)

  /** The signature check: wallet, message, signature. */
  type Verifier = (string, string, string) -> bool

  // ----- steps -------------------------------------------------------------------

  function Holds(s: State, r: Request): bool {
    NonceKey(r.wallet) in s.store && s.store[NonceKey(r.wallet)] == Nonce(r.nonce)
  }

  /** After `redis.get`: nothing stored, the wrong nonce, a bad signature, or on to consuming. */
  function AfterLookup(s: State, r: Request, verify: Verifier): Phase {
    if NonceKey(r.wallet) !in s.store then Rejected
    else if !Holds(s, r) then Counting
    else if !verify(r.wallet, r.nonce, r.signature) then Counting
    else Consuming
  }

  function Attempts(s: State, r: Request): nat {
    var k := AttemptsKey(r.wallet);
    if k in s.store && s.store[k].Counter? then s.store[k].n else 0
  }

  function LockOrReject(attempts: nat, maxAttempts: nat): Phase {
    if attempts >= maxAttempts then DeletingNonce else Rejected
  }

  /** What the store does for the call a request makes in its phase. */
  function StoreAfter(s: State, id: nat, r: Request): State {
    match r.phase
    case Counting => s.(store := s.store[AttemptsKey(r.wallet) := Counter(Attempts(s, r) + 1)])
    case DeletingNonce => s.(store := s.store - {NonceKey(r.wallet)})
    case DeletingCounter => s.(store := s.store - {AttemptsKey(r.wallet)})
    case ClearingCounter => s.(store := s.store - {AttemptsKey(r.wallet)})
    case Consuming =>
      if Holds(s, r) then s.(store := s.store - {NonceKey(r.wallet)}, spent := s.spent[r.nonce := id]) else s
    case _ => s
  }

  /** Where an answered request goes, given the state its call was carried out in. */
  function PhaseAfter(s: State, r: Request, verify: Verifier, maxAttempts: nat): Phase {
    match r.phase
    case Lookup => AfterLookup(s, r, verify)
    case Counting =>
      var attempts := Attempts(s, r) + 1;
      if attempts == 1 then SettingTtl(attempts) else LockOrReject(attempts, maxAttempts)
    case SettingTtl(attempts) => LockOrReject(attempts, maxAttempts)
    case DeletingNonce => DeletingCounter
    case DeletingCounter => Rejected
    case Consuming => if Holds(s, r) then ClearingCounter else Rejected
    case ClearingCounter => Done
    case Done => Done
    case Rejected => Rejected
  }

  predicate Ended(phase: Phase) {
    phase.Done? || phase.Rejected?
  }

  function SetPhase(s: State, id: nat, phase: Phase): State
    requires id in s.requests
  {
    s.(requests := s.requests[id := s.requests[id].(phase := phase)])
  }

  function AdvanceRequest(s: State, id: nat, reply: Reply, verify: Verifier, maxAttempts: nat): State
    requires id in s.requests
  {
    var r := s.requests[id];
    if Ended(r.phase) then s
    else match reply
      case LostBefore => SetPhase(s, id, Rejected)
      case LostAfter => SetPhase(StoreAfter(s, id, r), id, Rejected)
      case Answered =>
        var phase := PhaseAfter(s, r, verify, maxAttempts);
        var s' := SetPhase(StoreAfter(s, id, r), id, phase);
        if phase.Done? then s'.(jwts := s'.jwts + [Jwt(r.wallet, id)]) else s'
  }

  /** Requests and nonces are for well-formed wallets, request ids are new, and a fresh nonce has
      never been stored before; any other event does nothing. */
  function Step(s: State, e: Event, verify: Verifier, maxAttempts: nat): State {
    match e
    case Issue(wallet, nonce) =>
      if LooksLikeAccountId(wallet) && nonce !in s.issued
      then s.(store := s.store[NonceKey(wallet) := Nonce(nonce)], issued := s.issued[nonce := wallet]) else s
    case Begin(id, wallet, nonce, signature) =>
      if LooksLikeAccountId(wallet) && id !in s.requests
      then s.(requests := s.requests[id := Request(wallet, nonce, signature, Lookup)]) else s
    case Advance(id, reply) =>
      if id in s.requests then AdvanceRequest(s, id, reply, verify, maxAttempts) else s
    case Expire(key) => s.(store := s.store - {key})
  }

  function RunAll(s: State, events: seq<Event>, verify: Verifier, maxAttempts: nat): State {
    if events == [] then s
    else Step(RunAll(s, events[..|events| - 1], verify, maxAttempts), events[|events| - 1], verify, maxAttempts)
  }

  // ----- keys --------------------------------------------------------------------

  lemma NonceKeyInjective(wallet: string, wallet': string)
    requires NonceKey(wallet) == NonceKey(wallet')
    ensures wallet == wallet'
  {
    assert NonceKey(wallet)[11..] == wallet && NonceKey(wallet')[11..] == wallet';
  }

  /** No wallet's counter key is any wallet's nonce key. */
  lemma KeysApart(wallet: string, wallet': string)
    requires LooksLikeAccountId(wallet)
    ensures NonceKey(wallet) != AttemptsKey(wallet')
  {
    assert NonceKey(wallet)[11] == 'G' && AttemptsKey(wallet')[11] == 'a';
  }

  /** A store call leaves everything but the store alone, and marks at most its own nonce as spent. */
  lemma StoreCallFrame(s: State, id: nat, r: Request)
    ensures var s' := StoreAfter(s, id, r);
            && s'.requests == s.requests && s'.jwts == s.jwts && s'.issued == s.issued
            && s'.spent == if r.phase.Consuming? && Holds(s, r) then s.spent[r.nonce := id] else s.spent
  {
  }

  /** A store call can only remove its wallet's two keys or set its counter. */
  ghost predicate StoreChanged(store: map<string, Value>, after: map<string, Value>, wallet: string) {
    forall k ::
      && (k in after && k != AttemptsKey(wallet) ==> k in store && after[k] == store[k])
      && (k in store && k != NonceKey(wallet) && k != AttemptsKey(wallet) ==> k in after)
      && (k in after && k in store && after[k].Nonce? ==> after[k] == store[k])
      && (k in after && k !in store ==> after[k].Counter?)
  }

  lemma StoreCallChanges(s: State, id: nat, r: Request)
    ensures StoreChanged(s.store, StoreAfter(s, id, r).store, r.wallet)
    ensures r.phase.Consuming? && Holds(s, r) ==> NonceKey(r.wallet) !in StoreAfter(s, id, r).store
  {
  }

  /** A request never touches another wallet's nonce, whatever it does and however it fails. */
  lemma OtherWalletsUntouched(s: State, id: nat, reply: Reply, verify: Verifier, maxAttempts: nat, wallet: string)
    requires id in s.requests && LooksLikeAccountId(wallet) && s.requests[id].wallet != wallet
    ensures var s' := AdvanceRequest(s, id, reply, verify, maxAttempts);
            && (NonceKey(wallet) in s'.store <==> NonceKey(wallet) in s.store)
            && (NonceKey(wallet) in s.store ==> s'.store[NonceKey(wallet)] == s.store[NonceKey(wallet)])
  {
    var r := s.requests[id];
    StoreCallChanges(s, id, r);
    KeysApart(wallet, r.wallet);
    if NonceKey(wallet) == NonceKey(r.wallet) {
      NonceKeyInjective(wallet, r.wallet);
    }
    assert AdvanceRequest(s, id, reply, verify, maxAttempts).store in {s.store, StoreAfter(s, id, r).store};
  }

  // ----- the invariant -----------------------------------------------------------

  /** A stored nonce sits under the key of the wallet it was issued to, and has not been consumed. */
  ghost predicate StoredNoncesLive(s: State) {
    forall k :: k in s.store && s.store[k].Nonce? ==>
      var n := s.store[k].nonce;
      n in s.issued && k == NonceKey(s.issued[n]) && n !in s.spent
  }

  /** What a request has established by the phase it is in. */
  ghost predicate RequestSound(s: State, id: nat, verify: Verifier)
    requires id in s.requests
  {
    var r := s.requests[id];
    && LooksLikeAccountId(r.wallet)
    && (r.phase.Consuming? || r.phase.ClearingCounter? || r.phase.Done? ==>
          verify(r.wallet, r.nonce, r.signature) && r.nonce in s.issued && s.issued[r.nonce] == r.wallet)
    && (r.phase.ClearingCounter? || r.phase.Done? ==> r.nonce in s.spent && s.spent[r.nonce] == id)
  }

  ghost predicate JwtsSound(s: State) {
    && (forall i :: 0 <= i < |s.jwts| ==>
          var j := s.jwts[i];
          j.request in s.requests && s.requests[j.request].phase.Done? && s.requests[j.request].wallet == j.wallet)
    && (forall i, k :: 0 <= i < k < |s.jwts| ==> s.jwts[i].request != s.jwts[k].request)
  }

  ghost predicate Inv(s: State, verify: Verifier) {
    && StoredNoncesLive(s)
    && (forall id :: id in s.requests ==> RequestSound(s, id, verify))
    && JwtsSound(s)
    && (forall n :: n in s.spent ==> n in s.issued)
  }

  lemma StoreCallKeepsLive(s: State, id: nat, r: Request)
    requires StoredNoncesLive(s)
    ensures StoredNoncesLive(StoreAfter(s, id, r))
  {
    var s' := StoreAfter(s, id, r);
    StoreCallFrame(s, id, r);
    StoreCallChanges(s, id, r);
    forall k | k in s'.store && s'.store[k].Nonce? ensures k in s.store && s'.store[k] == s.store[k] && s.store[k].nonce !in s'.spent {
    }
  }

  /** Marking a live nonce as spent does not touch what other requests rely on. */
  lemma SpendKeepsSound(s: State, s': State, nonce: string, id: nat, other: nat, verify: Verifier)
    requires other in s.requests && other in s'.requests && s'.requests[other] == s.requests[other]
    requires RequestSound(s, other, verify) && s'.issued == s.issued
    requires s'.spent == s.spent || (nonce !in s.spent && s'.spent == s.spent[nonce := id])
    ensures RequestSound(s', other, verify)
  {
  }

  lemma HeldNonceIsLive(s: State, r: Request)
    requires StoredNoncesLive(s) && Holds(s, r)
    ensures r.nonce in s.issued && s.issued[r.nonce] == r.wallet && r.nonce !in s.spent
  {
    NonceKeyInjective(s.issued[r.nonce], r.wallet);
  }

  /** The request that moved is sound in its new phase. */
  lemma MoverSound(s: State, id: nat, reply: Reply, verify: Verifier, maxAttempts: nat)
    requires Inv(s, verify) && id in s.requests && !Ended(s.requests[id].phase)
    ensures RequestSound(AdvanceRequest(s, id, reply, verify, maxAttempts), id, verify)
  {
    var r := s.requests[id];
    assert RequestSound(s, id, verify);
    StoreCallFrame(s, id, r);
    if Holds(s, r) {
      HeldNonceIsLive(s, r);
    }
  }

  lemma AdvanceKeepsJwts(s: State, id: nat, reply: Reply, verify: Verifier, maxAttempts: nat)
    requires JwtsSound(s) && id in s.requests && !Ended(s.requests[id].phase)
    ensures JwtsSound(AdvanceRequest(s, id, reply, verify, maxAttempts))
  {
    StoreCallFrame(s, id, s.requests[id]);
  }

  lemma AdvanceKeepsInv(s: State, id: nat, reply: Reply, verify: Verifier, maxAttempts: nat)
    requires Inv(s, verify) && id in s.requests
    ensures Inv(AdvanceRequest(s, id, reply, verify, maxAttempts), verify)
  {
    var r := s.requests[id];
    if !Ended(r.phase) {
      var t := StoreAfter(s, id, r);
      var s' := AdvanceRequest(s, id, reply, verify, maxAttempts);
      assert RequestSound(s, id, verify);
      StoreCallKeepsLive(s, id, r);
      StoreCallFrame(s, id, r);
      if Holds(s, r) {
        HeldNonceIsLive(s, r);
      }
      assert s'.issued == s.issued && ((s'.store == s.store && s'.spent == s.spent) || (s'.store == t.store && s'.spent == t.spent));
      AdvanceKeepsJwts(s, id, reply, verify, maxAttempts);
      MoverSound(s, id, reply, verify, maxAttempts);
      forall other | other in s'.requests ensures RequestSound(s', other, verify) {
        if other != id {
          SpendKeepsSound(s, s', r.nonce, id, other, verify);
        }
      }
    }
  }

  lemma StepKeepsInv(s: State, e: Event, verify: Verifier, maxAttempts: nat)
    requires Inv(s, verify)
    ensures Inv(Step(s, e, verify, maxAttempts), verify)
  {
    var s' := Step(s, e, verify, maxAttempts);
    match e {
      case Advance(id, reply) =>
        if id in s.requests {
          AdvanceKeepsInv(s, id, reply, verify, maxAttempts);
        }
      case Issue(wallet, nonce) =>
        if LooksLikeAccountId(wallet) && nonce !in s.issued {
          assert StoredNoncesLive(s');
        }
        forall id | id in s'.requests ensures RequestSound(s', id, verify) {
          assert RequestSound(s, id, verify);
        }
      case Begin(_, _, _, _) =>
        forall id | id in s'.requests ensures RequestSound(s', id, verify) {
          if id in s.requests { assert RequestSound(s, id, verify); }
        }
      case Expire(_) =>
        forall id | id in s'.requests ensures RequestSound(s', id, verify) {
          assert RequestSound(s, id, verify);
        }
    }
  }

  lemma {:induction false} RunKeepsInv(s: State, events: seq<Event>, verify: Verifier, maxAttempts: nat)
    requires Inv(s, verify)
    ensures Inv(RunAll(s, events, verify, maxAttempts), verify)
  {
    if events != [] {
      RunKeepsInv(s, events[..|events| - 1], verify, maxAttempts);
      StepKeepsInv(RunAll(s, events[..|events| - 1], verify, maxAttempts), events[|events| - 1], verify, maxAttempts);
    }
  }

  // ----- what the protocol guarantees --------------------------------------------

  /** The request a JWT came from. */
  ghost function RequestOf(s: State, j: Jwt): Request
    requires j.request in s.requests
  {
    s.requests[j.request]
  }

  /** In every run: each nonce yields at most one JWT, and a JWT for a wallet rests on a valid
      signature by that wallet over a nonce issued to that wallet. */
  lemma OneJwtPerNonce(events: seq<Event>, verify: Verifier, maxAttempts: nat)
    ensures var s := RunAll(START, events, verify, maxAttempts);
            && (forall i :: 0 <= i < |s.jwts| ==>
                  && s.jwts[i].request in s.requests
                  && var r := RequestOf(s, s.jwts[i]);
                     && r.wallet == s.jwts[i].wallet
                     && verify(r.wallet, r.nonce, r.signature)
                     && r.nonce in s.issued && s.issued[r.nonce] == r.wallet)
            && (forall i, k | 0 <= i < |s.jwts| && 0 <= k < |s.jwts| ::
                  RequestOf(s, s.jwts[i]).nonce == RequestOf(s, s.jwts[k]).nonce ==> i == k)
  {
    RunKeepsInv(START, events, verify, maxAttempts);
    var s := RunAll(START, events, verify, maxAttempts);
    forall i | 0 <= i < |s.jwts|
      ensures s.jwts[i].request in s.requests && RequestSound(s, s.jwts[i].request, verify)
    {
    }
  }

  /** A nonce issued before and no longer stored. */
  ghost predicate Dead(s: State, nonce: string) {
    nonce in s.issued && forall k :: k in s.store ==> s.store[k] != Nonce(nonce)
  }

  /** A request already past consuming that nonce. */
  ghost predicate PastConsuming(s: State, id: nat, nonce: string) {
    id in s.requests && s.requests[id].nonce == nonce
    && (s.requests[id].phase.ClearingCounter? || s.requests[id].phase.Done?)
  }

  lemma AdvanceKeepsDead(s: State, id: nat, reply: Reply, nonce: string, verify: Verifier, maxAttempts: nat)
    requires Dead(s, nonce) && id in s.requests
    ensures var s' := AdvanceRequest(s, id, reply, verify, maxAttempts);
            && Dead(s', nonce)
            && (PastConsuming(s', id, nonce) ==> PastConsuming(s, id, nonce))
            && forall other :: other in s.requests && other != id ==>
                 other in s'.requests && s'.requests[other] == s.requests[other]
  {
    var r := s.requests[id];
    StoreCallFrame(s, id, r);
    assert r.nonce == nonce ==> !Holds(s, r);
    forall k | k in StoreAfter(s, id, r).store ensures StoreAfter(s, id, r).store[k] != Nonce(nonce) {
    }
  }

  lemma StepKeepsDead(s: State, e: Event, nonce: string, verify: Verifier, maxAttempts: nat)
    requires Dead(s, nonce)
    ensures var s' := Step(s, e, verify, maxAttempts);
            Dead(s', nonce) && forall id :: PastConsuming(s', id, nonce) ==> PastConsuming(s, id, nonce)
  {
    if e.Advance? && e.id in s.requests {
      AdvanceKeepsDead(s, e.id, e.reply, nonce, verify, maxAttempts);
    }
  }

  /** Consumed, expired, replaced by a re-issue or deleted by lockout: a nonce once gone from the
      store never comes back, and no request that had not consumed it by then ever will. */
  lemma {:induction false} DeadNonceStaysDead(s: State, events: seq<Event>, nonce: string, verify: Verifier, maxAttempts: nat)
    requires Dead(s, nonce)
    ensures var s' := RunAll(s, events, verify, maxAttempts);
            Dead(s', nonce) && forall id :: PastConsuming(s', id, nonce) ==> PastConsuming(s, id, nonce)
  {
    if events != [] {
      DeadNonceStaysDead(s, events[..|events| - 1], nonce, verify, maxAttempts);
      StepKeepsDead(RunAll(s, events[..|events| - 1], verify, maxAttempts), events[|events| - 1], nonce, verify, maxAttempts);
    }
  }

  /** Issuing again kills the wallet's previous nonce. */
  lemma ReissueKills(s: State, wallet: string, nonce: string, previous: string, verify: Verifier, maxAttempts: nat)
    requires Inv(s, verify) && LooksLikeAccountId(wallet) && nonce !in s.issued
    requires previous in s.issued && s.issued[previous] == wallet
    ensures Dead(Step(s, Issue(wallet, nonce), verify, maxAttempts), previous)
  {
  }

  // ----- a request left alone ----------------------------------------------------

  type Store = map<string, Value>

  /** The access token, or the code of the error thrown. */
  datatype Outcome = AccessToken(wallet: string) | NonceUnknown | NonceMismatch | SignatureInvalid | TooManyAttempts

  function CountIn(store: Store, wallet: string): nat {
    var k := AttemptsKey(wallet);
    if k in store && store[k].Counter? then store[k].n else 0
  }

  /** The attempt that reaches the limit takes the nonce and its counter with it. */
  function AfterFailure(store: Store, wallet: string, maxAttempts: nat): Store {
    var n := CountIn(store, wallet) + 1;
    var counted := store[AttemptsKey(wallet) := Counter(n)];
    if n >= maxAttempts then counted - {NonceKey(wallet)} - {AttemptsKey(wallet)} else counted
  }

  function FailureOutcome(store: Store, wallet: string, maxAttempts: nat, code: Outcome): Outcome {
    if CountIn(store, wallet) + 1 >= maxAttempts then TooManyAttempts else code
  }

  /** One whole verification with nobody else at the store. */
  function VerifyAlone(store: Store, wallet: string, nonce: string, signature: string,
                       verify: Verifier, maxAttempts: nat): (Store, Outcome) {
    if NonceKey(wallet) !in store then (store, NonceUnknown)
    else if store[NonceKey(wallet)] != Nonce(nonce)
    then (AfterFailure(store, wallet, maxAttempts), FailureOutcome(store, wallet, maxAttempts, NonceMismatch))
    else if !verify(wallet, nonce, signature)
    then (AfterFailure(store, wallet, maxAttempts), FailureOutcome(store, wallet, maxAttempts, SignatureInvalid))
    else (store - {NonceKey(wallet)} - {AttemptsKey(wallet)}, AccessToken(wallet))
  }

  /** What a whole verification owes its caller, told on the keys and values of the store: a token
      for exactly the stored nonce under a valid signature, which uses up nonce and counter; the code
      of the first check that fails otherwise, or the lockout once the limit is reached; one more
      counted failure; and nothing of any other key. */
  ghost predicate VerifyPromise(store: Store, after: Store, outcome: Outcome, wallet: string, nonce: string,
                                signature: string, verify: Verifier, maxAttempts: nat) {
    var nonceKey, attemptsKey := "auth:nonce:" + wallet, "auth:nonce:attempts:" + wallet;
    var stored := nonceKey in store && store[nonceKey] == Nonce(nonce);
    var failures := if attemptsKey in store && store[attemptsKey].Counter? then store[attemptsKey].n + 1 else 1;
    && (outcome == AccessToken(wallet) <==> stored && verify(wallet, nonce, signature))
    && (outcome == NonceUnknown <==> nonceKey !in store)
    && (outcome == NonceMismatch <==> nonceKey in store && !stored && failures < maxAttempts)
    && (outcome == SignatureInvalid <==> stored && !verify(wallet, nonce, signature) && failures < maxAttempts)
    && (outcome == TooManyAttempts <==>
          nonceKey in store && !(stored && verify(wallet, nonce, signature)) && failures >= maxAttempts)
    && (outcome == AccessToken(wallet) || outcome == TooManyAttempts ==> nonceKey !in after && attemptsKey !in after)
    && (outcome == NonceUnknown ==> after == store)
    && (outcome == NonceMismatch || outcome == SignatureInvalid ==>
          && nonceKey in after && after[nonceKey] == store[nonceKey]
          && attemptsKey in after && after[attemptsKey] == Counter(failures))
    && (forall k :: k != nonceKey && k != attemptsKey ==>
          (k in after <==> k in store) && (k in store ==> after[k] == store[k]))
  }

  lemma VerifyAloneKeepsPromise(store: Store, wallet: string, nonce: string, signature: string,
                                verify: Verifier, maxAttempts: nat)
    requires LooksLikeAccountId(wallet)
    ensures var (after, outcome) := VerifyAlone(store, wallet, nonce, signature, verify, maxAttempts);
            VerifyPromise(store, after, outcome, wallet, nonce, signature, verify, maxAttempts)
  {
    KeysApart(wallet, wallet);
  }

  /** White space and line terminators, as `String.prototype.trim` takes them. */
  predicate IsBlank(c: char) {
    var n := c as int;
    9 <= n <= 13 || n == 32 || n == 0xA0 || n == 0x1680 || 0x2000 <= n <= 0x200A
    || n == 0x2028 || n == 0x2029 || n == 0x202F || n == 0x205F || n == 0x3000 || n == 0xFEFF
  }

  function TrimStart(s: string): string {
    if s != [] && IsBlank(s[0]) then TrimStart(s[1..]) else s
  }

  function TrimEnd(s: string): string {
    if s != [] && IsBlank(s[|s| - 1]) then TrimEnd(s[..|s| - 1]) else s
  }

  function Trim(s: string): string {
    TrimEnd(TrimStart(s))
  }

  ghost predicate AllBlank(s: string) {
    forall i :: 0 <= i < |s| ==> IsBlank(s[i])
  }

  lemma {:induction false} TrimStartDropsBlanks(a: string, s: string)
    requires AllBlank(a) && s != [] && !IsBlank(s[0])
    ensures TrimStart(a + s) == s
  {
    if a == [] {
      assert a + s == s;
    } else {
      assert (a + s)[1..] == a[1..] + s;
      TrimStartDropsBlanks(a[1..], s);
    }
  }

  lemma {:induction false} TrimEndDropsBlanks(s: string, b: string)
    requires AllBlank(b) && s != [] && !IsBlank(s[|s| - 1])
    ensures TrimEnd(s + b) == s
  {
    if b == [] {
      assert s + b == s;
    } else {
      assert (s + b)[..|s + b| - 1] == s + b[..|b| - 1];
      TrimEndDropsBlanks(s, b[..|b| - 1]);
    }
  }

  /** Spaces, tabs and line ends are blanks, letters and digits are not. */
  lemma BlanksAndOthers(c: char)
    ensures c in " \t\n\r" ==> IsBlank(c)
    ensures 'A' <= c <= 'Z' || 'a' <= c <= 'z' || '0' <= c <= '9' ==> !IsBlank(c)
  {
  }

  lemma {:induction false} TrimStartSplits(s: string) returns (a: string)
    ensures AllBlank(a) && s == a + TrimStart(s) && (TrimStart(s) != [] ==> !IsBlank(TrimStart(s)[0]))
  {
    a := [];
    if s != [] && IsBlank(s[0]) {
      a := TrimStartSplits(s[1..]);
      a := [s[0]] + a;
    }
  }

  lemma {:induction false} TrimEndSplits(s: string) returns (b: string)
    ensures AllBlank(b) && s == TrimEnd(s) + b && (TrimEnd(s) != [] ==> !IsBlank(TrimEnd(s)[|TrimEnd(s)| - 1]))
  {
    b := [];
    if s != [] && IsBlank(s[|s| - 1]) {
      b := TrimEndSplits(s[..|s| - 1]);
      b := b + [s[|s| - 1]];
    }
  }

  /** Trimming takes away blanks only, and all of them from both ends. */
  lemma TrimTakesBlanks(s: string) returns (a: string, b: string)
    ensures AllBlank(a) && AllBlank(b) && s == a + Trim(s) + b
    ensures Trim(s) != [] ==> !IsBlank(Trim(s)[0]) && !IsBlank(Trim(s)[|Trim(s)| - 1])
  {
    a := TrimStartSplits(s);
    b := TrimEndSplits(TrimStart(s));
    assert Trim(s) != [] ==> Trim(s)[0] == TrimStart(s)[0];
  }

  /** Blanks around a wallet address do not matter to the nonce endpoint. */
  lemma TrimFindsWallet(a: string, wallet: string, b: string)
    requires AllBlank(a) && AllBlank(b) && LooksLikeAccountId(wallet)
    ensures Trim(a + wallet + b) == wallet
  {
    assert a + wallet + b == a + (wallet + b);
    TrimStartDropsBlanks(a, wallet + b);
    TrimEndDropsBlanks(wallet, b);
  }

  /** The nonce endpoint and the verification service, on the store they share. */
  class AuthService {
    var store: Store
    const maxNonceAttempts: nat

    constructor (maxNonceAttempts: nat)
      ensures this.maxNonceAttempts == maxNonceAttempts && store == map[]
    {
      this.maxNonceAttempts := maxNonceAttempts;
      store := map[];
    }

    /** `value` is the wallet address as it came in the request. */
    method IssueNonce(value: string, nonce: string) returns (issued: bool)
      modifies this`store
      ensures issued <==> LooksLikeAccountId(Trim(value))
      ensures store == if issued then old(store)[NonceKey(Trim(value)) := Nonce(nonce)] else old(store)
    {
      var wallet := Trim(value);
      if !LooksLikeAccountId(wallet) { return false; }
      store := store[NonceKey(wallet) := Nonce(nonce)];
      return true;
    }

    method VerifyWallet(wallet: string, nonce: string, signature: string, verify: Verifier) returns (outcome: Outcome)
      requires LooksLikeAccountId(wallet)
      modifies this`store
      ensures (store, outcome) == VerifyAlone(old(store), wallet, nonce, signature, verify, maxNonceAttempts)
      ensures VerifyPromise(old(store), store, outcome, wallet, nonce, signature, verify, maxNonceAttempts)
    {
      KeysApart(wallet, wallet);
      VerifyAloneKeepsPromise(store, wallet, nonce, signature, verify, maxNonceAttempts);
      if NonceKey(wallet) !in store { return NonceUnknown; }
      if store[NonceKey(wallet)] != Nonce(nonce) {
        var locked := RegisterFailedAttempt(wallet);
        return if locked then TooManyAttempts else NonceMismatch;
      }
      if !verify(wallet, nonce, signature) {
        var locked := RegisterFailedAttempt(wallet);
        return if locked then TooManyAttempts else SignatureInvalid;
      }
      store := store - {NonceKey(wallet)};
      store := store - {AttemptsKey(wallet)};
      return AccessToken(wallet);
    }

    method RegisterFailedAttempt(wallet: string) returns (locked: bool)
      modifies this`store
      ensures store == AfterFailure(old(store), wallet, maxNonceAttempts)
      ensures locked <==> CountIn(old(store), wallet) + 1 >= maxNonceAttempts
    {
      var attempts := CountIn(store, wallet) + 1;
      store := store[AttemptsKey(wallet) := Counter(attempts)];
      if attempts >= maxNonceAttempts {
        store := store - {NonceKey(wallet)};
        store := store - {AttemptsKey(wallet)};
        return true;
      }
      return false;
    }
  }

  /** Up to `n` answered store calls of one request in a row. */
  function Settle(s: State, id: nat, n: nat, verify: Verifier, maxAttempts: nat): State
    decreases n
  {
    if n == 0 || id !in s.requests then s
    else Settle(AdvanceRequest(s, id, Answered, verify, maxAttempts), id, n - 1, verify, maxAttempts)
  }

  /** The request has ended, with this store and these tokens. */
  ghost predicate EndsWith(s: State, id: nat, store: Store, jwts: seq<Jwt>) {
    id in s.requests && Ended(s.requests[id].phase) && s.store == store && s.jwts == jwts
  }

  lemma {:induction false} EndedStays(s: State, id: nat, n: nat, verify: Verifier, maxAttempts: nat)
    requires id in s.requests && Ended(s.requests[id].phase)
    ensures Settle(s, id, n, verify, maxAttempts) == s
  {
    if n > 0 {
      EndedStays(s, id, n - 1, verify, maxAttempts);
    }
  }

  /** One answered call, for a request that has not ended. */
  lemma SettleOnce(s: State, id: nat, n: nat, verify: Verifier, maxAttempts: nat) returns (t: State)
    requires id in s.requests && !Ended(s.requests[id].phase) && n > 0
    ensures Settle(s, id, n, verify, maxAttempts) == Settle(t, id, n - 1, verify, maxAttempts)
    ensures var r := s.requests[id];
            var phase := PhaseAfter(s, r, verify, maxAttempts);
            && id in t.requests && t.requests[id] == r.(phase := phase)
            && t.store == StoreAfter(s, id, r).store
            && t.jwts == if phase.Done? then s.jwts + [Jwt(r.wallet, id)] else s.jwts
  {
    t := AdvanceRequest(s, id, Answered, verify, maxAttempts);
    StoreCallFrame(s, id, s.requests[id]);
  }

  lemma LockingEnds(s: State, id: nat, n: nat, verify: Verifier, maxAttempts: nat)
    requires id in s.requests && s.requests[id].phase == DeletingNonce && n >= 2
    ensures var wallet := s.requests[id].wallet;
            EndsWith(Settle(s, id, n, verify, maxAttempts), id,
                     s.store - {NonceKey(wallet)} - {AttemptsKey(wallet)}, s.jwts)
  {
    var t := SettleOnce(s, id, n, verify, maxAttempts);
    var u := SettleOnce(t, id, n - 1, verify, maxAttempts);
    EndedStays(u, id, n - 2, verify, maxAttempts);
  }

  lemma CountingEnds(s: State, id: nat, n: nat, verify: Verifier, maxAttempts: nat)
    requires id in s.requests && s.requests[id].phase == Counting && n >= 4
    ensures EndsWith(Settle(s, id, n, verify, maxAttempts), id,
                     AfterFailure(s.store, s.requests[id].wallet, maxAttempts), s.jwts)
  {
    var attempts := Attempts(s, s.requests[id]) + 1;
    var t := SettleOnce(s, id, n, verify, maxAttempts);
    var m := n - 1;
    if attempts == 1 {
      t := SettleOnce(t, id, m, verify, maxAttempts);
      m := m - 1;
    }
    assert t.requests[id].phase == LockOrReject(attempts, maxAttempts);
    if attempts >= maxAttempts {
      LockingEnds(t, id, m, verify, maxAttempts);
    } else {
      EndedStays(t, id, m, verify, maxAttempts);
    }
  }

  lemma ConsumingEnds(s: State, id: nat, n: nat, verify: Verifier, maxAttempts: nat)
    requires id in s.requests && s.requests[id].phase == Consuming && Holds(s, s.requests[id]) && n >= 2
    ensures var wallet := s.requests[id].wallet;
            EndsWith(Settle(s, id, n, verify, maxAttempts), id,
                     s.store - {NonceKey(wallet)} - {AttemptsKey(wallet)}, s.jwts + [Jwt(wallet, id)])
  {
    var t := SettleOnce(s, id, n, verify, maxAttempts);
    var u := SettleOnce(t, id, n - 1, verify, maxAttempts);
    EndedStays(u, id, n - 2, verify, maxAttempts);
  }

  lemma LookupEnds(s: State, id: nat, n: nat, verify: Verifier, maxAttempts: nat)
    requires id in s.requests && s.requests[id].phase == Lookup && n >= 5
    ensures var r := s.requests[id];
            var (store, outcome) := VerifyAlone(s.store, r.wallet, r.nonce, r.signature, verify, maxAttempts);
            EndsWith(Settle(s, id, n, verify, maxAttempts), id,
                     store, if outcome.AccessToken? then s.jwts + [Jwt(r.wallet, id)] else s.jwts)
  {
    var t := SettleOnce(s, id, n, verify, maxAttempts);
    var phase := AfterLookup(s, s.requests[id], verify);
    assert t.store == s.store && t.jwts == s.jwts;
    if phase == Counting {
      CountingEnds(t, id, n - 1, verify, maxAttempts);
    } else if phase == Consuming {
      ConsumingEnds(t, id, n - 1, verify, maxAttempts);
    } else {
      EndedStays(t, id, n - 1, verify, maxAttempts);
    }
  }

  /** The chain of store calls, when nothing comes between them, does exactly what the service's
      code does read from top to bottom; five calls always suffice. */
  lemma StepsRefineRequest(s: State, id: nat, wallet: string, nonce: string, signature: string,
                           verify: Verifier, maxAttempts: nat)
    requires LooksLikeAccountId(wallet) && id !in s.requests
    ensures var (store, outcome) := VerifyAlone(s.store, wallet, nonce, signature, verify, maxAttempts);
            EndsWith(Settle(Step(s, Begin(id, wallet, nonce, signature), verify, maxAttempts), id, 5, verify, maxAttempts), id,
                     store, if outcome.AccessToken? then s.jwts + [Jwt(wallet, id)] else s.jwts)
  {
    var b := Step(s, Begin(id, wallet, nonce, signature), verify, maxAttempts);
    LookupEnds(b, id, 5, verify, maxAttempts);
  }

  /** `n` answered calls of one request. */
  function Calls(id: nat, n: nat): seq<Event> {
    if n == 0 then [] else Calls(id, n - 1) + [Advance(id, Answered)]
  }

  lemma {:induction false} OneMoreSettled(s: State, id: nat, n: nat, verify: Verifier, maxAttempts: nat)
    requires id in s.requests
    ensures id in Settle(s, id, n, verify, maxAttempts).requests
    ensures Settle(s, id, n + 1, verify, maxAttempts)
         == AdvanceRequest(Settle(s, id, n, verify, maxAttempts), id, Answered, verify, maxAttempts)
    decreases n
  {
    var t := AdvanceRequest(s, id, Answered, verify, maxAttempts);
    StoreCallFrame(s, id, s.requests[id]);
    if n == 0 {
      assert Settle(s, id, 1, verify, maxAttempts) == Settle(t, id, 0, verify, maxAttempts);
    } else {
      OneMoreSettled(t, id, n - 1, verify, maxAttempts);
    }
  }

  lemma {:induction false} SettlingIsARun(s: State, id: nat, n: nat, verify: Verifier, maxAttempts: nat)
    requires id in s.requests
    ensures RunAll(s, Calls(id, n), verify, maxAttempts) == Settle(s, id, n, verify, maxAttempts)
  {
    if n > 0 {
      SettlingIsARun(s, id, n - 1, verify, maxAttempts);
      OneMoreSettled(s, id, n - 1, verify, maxAttempts);
      assert Calls(id, n)[..|Calls(id, n)| - 1] == Calls(id, n - 1);
    }
  }

  lemma {:induction false} RunConcat(s: State, a: seq<Event>, b: seq<Event>, verify: Verifier, maxAttempts: nat)
    ensures RunAll(s, a + b, verify, maxAttempts) == RunAll(RunAll(s, a, verify, maxAttempts), b, verify, maxAttempts)
  {
    if b == [] {
      assert a + b == a;
    } else {
      assert (a + b)[..|a + b| - 1] == a + b[..|b| - 1];
      RunConcat(s, a, b[..|b| - 1], verify, maxAttempts);
    }
  }

  lemma RunOne(s: State, e: Event, verify: Verifier, maxAttempts: nat)
    ensures RunAll(s, [e], verify, maxAttempts) == Step(s, e, verify, maxAttempts)
  {
    assert [e][..0] == [];
  }

  /** A request left alone for five answered calls: one more token for its wallet exactly when its
      nonce is the stored one and its signature valid, and the store as a verification owes it. */
  lemma LeftAlone(s: State, id: nat, wallet: string, nonce: string, signature: string, verify: Verifier, maxAttempts: nat)
    returns (outcome: Outcome)
    requires LooksLikeAccountId(wallet) && id !in s.requests
    ensures var t := RunAll(s, [Begin(id, wallet, nonce, signature)] + Calls(id, 5), verify, maxAttempts);
            var stored := "auth:nonce:" + wallet in s.store && s.store["auth:nonce:" + wallet] == Nonce(nonce);
            && t.jwts == (if stored && verify(wallet, nonce, signature) then s.jwts + [Jwt(wallet, id)] else s.jwts)
            && VerifyPromise(s.store, t.store, outcome, wallet, nonce, signature, verify, maxAttempts)
  {
    var begin := Begin(id, wallet, nonce, signature);
    outcome := VerifyAlone(s.store, wallet, nonce, signature, verify, maxAttempts).1;
    RunConcat(s, [begin], Calls(id, 5), verify, maxAttempts);
    RunOne(s, begin, verify, maxAttempts);
    SettlingIsARun(Step(s, begin, verify, maxAttempts), id, 5, verify, maxAttempts);
    StepsRefineRequest(s, id, wallet, nonce, signature, verify, maxAttempts);
    VerifyAloneKeepsPromise(s.store, wallet, nonce, signature, verify, maxAttempts);
  }

  /** From the start: a nonce issued, signed and sent back earns the wallet its token. */
  lemma SignedNonceEarnsToken(id: nat, wallet: string, nonce: string, signature: string, verify: Verifier, maxAttempts: nat)
    requires LooksLikeAccountId(wallet) && verify(wallet, nonce, signature)
    ensures var events := [Issue(wallet, nonce)] + ([Begin(id, wallet, nonce, signature)] + Calls(id, 5));
            RunAll(START, events, verify, maxAttempts).jwts == [Jwt(wallet, id)]
  {
    var rest := [Begin(id, wallet, nonce, signature)] + Calls(id, 5);
    RunConcat(START, [Issue(wallet, nonce)], rest, verify, maxAttempts);
    RunOne(START, Issue(wallet, nonce), verify, maxAttempts);
    var outcome := LeftAlone(Step(START, Issue(wallet, nonce), verify, maxAttempts), id, wallet, nonce, signature, verify, maxAttempts);
  }

  /** `k` failing verifications one after the other. */
  function Failures(store: Store, wallet: string, maxAttempts: nat, k: nat): Store {
    if k == 0 then store else AfterFailure(Failures(store, wallet, maxAttempts, k - 1), wallet, maxAttempts)
  }

  /** How many failures the wallet's nonce can take, the last one removing it. */
  function FailuresLeft(store: Store, wallet: string, maxAttempts: nat): nat {
    if CountIn(store, wallet) < maxAttempts then maxAttempts - CountIn(store, wallet) else 1
  }

  /** The wallet's nonce survives every failure before the last of these, and that one removes it
      together with the counter: the failures already counted against the wallet are held against
      whatever nonce it has now. */
  lemma {:induction false} LockoutAtTheLimit(store: Store, wallet: string, maxAttempts: nat, k: nat)
    requires LooksLikeAccountId(wallet) && NonceKey(wallet) in store
    requires k <= FailuresLeft(store, wallet, maxAttempts)
    ensures var after := Failures(store, wallet, maxAttempts, k);
            if k < FailuresLeft(store, wallet, maxAttempts)
            then CountIn(after, wallet) == CountIn(store, wallet) + k
                 && NonceKey(wallet) in after && after[NonceKey(wallet)] == store[NonceKey(wallet)]
            else NonceKey(wallet) !in after && AttemptsKey(wallet) !in after
  {
    KeysApart(wallet, wallet);
    if k > 0 {
      LockoutAtTheLimit(store, wallet, maxAttempts, k - 1);
    }
  }

  /** The limit as it reads: exactly the `maxAttempts`-th failure removes the nonce. */
  ghost predicate GetsFullLimit(store: Store, wallet: string, maxAttempts: nat) {
    && (forall k: nat :: k < maxAttempts ==> NonceKey(wallet) in Failures(store, wallet, maxAttempts, k))
    && NonceKey(wallet) !in Failures(store, wallet, maxAttempts, maxAttempts)
  }

  /** Issuing leaves the counter standing, so a new nonce gets the full limit if and only if no
      failure is counted against its wallet, or one failure is all anyone gets. */
  lemma NewNonceGetsFullLimitIff(store: Store, wallet: string, nonce: string, maxAttempts: nat)
    requires LooksLikeAccountId(wallet) && maxAttempts > 0
    ensures var issued := store[NonceKey(wallet) := Nonce(nonce)];
            && CountIn(issued, wallet) == CountIn(store, wallet)
            && (GetsFullLimit(issued, wallet, maxAttempts) <==> CountIn(store, wallet) == 0 || maxAttempts == 1)
  {
    var issued := store[NonceKey(wallet) := Nonce(nonce)];
    KeysApart(wallet, wallet);
    var left := FailuresLeft(issued, wallet, maxAttempts);
    LockoutAtTheLimit(issued, wallet, maxAttempts, left);
    if left == maxAttempts {
      forall k: nat | k < maxAttempts ensures NonceKey(wallet) in Failures(issued, wallet, maxAttempts, k) {
        LockoutAtTheLimit(issued, wallet, maxAttempts, k);
      }
    }
  }

  /** A nonce issued after `k` failures on the one before it can take only what those left over. */
  lemma ReissueInheritsFailures(wallet: string, first: string, second: string, maxAttempts: nat, k: nat)
    requires LooksLikeAccountId(wallet) && k < maxAttempts
    ensures var failed := Failures(map[NonceKey(wallet) := Nonce(first)], wallet, maxAttempts, k);
            FailuresLeft(failed[NonceKey(wallet) := Nonce(second)], wallet, maxAttempts) == maxAttempts - k
  {
    var start: Store := map[NonceKey(wallet) := Nonce(first)];
    KeysApart(wallet, wallet);
    LockoutAtTheLimit(start, wallet, maxAttempts, k);
  }
}
