/** Subscription requests of `websocket.rs` on one connection.

    The clock is read at several points of every call; its readings are passed in and do not decrease.
    A request counts as sent when its attempt is recorded, which the
    source does before it writes to the socket and whether or not the write succeeds. */
module Subscriptions {
  import opened Options

  const MAX_ATTEMPTS: nat := 3
  const RETRY_SECS: real := 5.0

  datatype Kind = Trades | L2Book

  function KindOf(name: string): Option<Kind> {
    if name == "trades" then Some(Trades) else if name == "l2Book" then Some(L2Book) else None
  }

  datatype TradingPair = TradingPair(coin: string, subscribeTrades: bool, subscribeOrderbook: bool)

  datatype SubscriptionState = SubscriptionState(
    pair: TradingPair, tradesAttempts: nat, orderbookAttempts: nat,
    tradesConfirmed: bool, orderbookConfirmed: bool, lastAttempt: Option<real>)
  {
    function Wanted(kind: Kind): bool {
      match kind case Trades => pair.subscribeTrades case L2Book => pair.subscribeOrderbook
    }

    function Attempts(kind: Kind): nat {
      match kind case Trades => tradesAttempts case L2Book => orderbookAttempts
    }

    function Confirmed(kind: Kind): bool {
      match kind case Trades => tradesConfirmed case L2Book => orderbookConfirmed
    }

    predicate ShouldRetry(kind: Kind, now: real) {
      && Attempts(kind) < MAX_ATTEMPTS
      && (lastAttempt.Some? ==> now - lastAttempt.value >= RETRY_SECS)
    }

    function RecordAttempt(kind: Kind, now: real): SubscriptionState {
      match kind
      case Trades => this.(tradesAttempts := tradesAttempts + 1, lastAttempt := Some(now))
      case L2Book => this.(orderbookAttempts := orderbookAttempts + 1, lastAttempt := Some(now))
    }

    function RecordConfirmation(kind: Kind): SubscriptionState {
      match kind case Trades => this.(tradesConfirmed := true) case L2Book => this.(orderbookConfirmed := true)
    }
  }

  type States = map<string, SubscriptionState>

  function Reset(pair: TradingPair): SubscriptionState {
    SubscriptionState(pair, 0, 0, false, false, None)
  }

  // ----- what has happened on the connection

  datatype Entry = Sent(coin: string, kind: Kind, at: real) | Confirmation(coin: string, kind: Kind)

  predicate Sends(e: Entry, coin: string, kind: Kind) {
    e.Sent? && e.coin == coin && e.kind == kind
  }

  function Count(log: seq<Entry>, coin: string, kind: Kind): nat {
    if log == [] then 0
    else Count(log[..|log| - 1], coin, kind) + (if Sends(log[|log| - 1], coin, kind) then 1 else 0)
  }

  lemma CountSnoc(log: seq<Entry>, e: Entry, coin: string, kind: Kind)
    ensures Count(log + [e], coin, kind) == Count(log, coin, kind) + (if Sends(e, coin, kind) then 1 else 0)
  {
    assert (log + [e])[..|log|] == log;
  }

  /** The requests made when the connection was opened come first, `initial` entries in all.  Every
      later request comes at least five seconds after any earlier one for the same coin and kind,
      and none follows its confirmation. */
  ghost predicate Paced(log: seq<Entry>, initial: nat) {
    forall i, j :: 0 <= i < j < |log| && initial <= j && log[j].Sent? && Sends(log[i], log[j].coin, log[j].kind) ==>
      log[i].at + RETRY_SECS <= log[j].at
  }

  ghost predicate NoneAfterConfirmation(log: seq<Entry>) {
    forall i, j :: 0 <= i < j < |log| && log[i].Confirmation? ==> !Sends(log[j], log[i].coin, log[i].kind)
  }

  /** The states of the connection agree with its log. */
  ghost predicate Agrees(states: States, log: seq<Entry>, now: real) {
    && (forall e :: e in log ==> e.coin in states)
    && (forall coin, kind :: coin in states ==>
          && states[coin].Attempts(kind) == Count(log, coin, kind)
          && (states[coin].Confirmed(kind) <==> Confirmation(coin, kind) in log))
    && (forall e :: e in log && e.Sent? ==>
          states[e.coin].lastAttempt.Some? && e.at <= states[e.coin].lastAttempt.value)
    && (forall coin :: coin in states && states[coin].lastAttempt.Some? ==> states[coin].lastAttempt.value <= now)
  }

  ghost predicate Bounded(log: seq<Entry>, initial: nat) {
    && initial <= |log|
    && forall coin, kind ::
         Count(log, coin, kind) <= MAX_ATTEMPTS || Count(log, coin, kind) <= Count(log[..initial], coin, kind)
  }

  ghost predicate Inv(states: States, log: seq<Entry>, initial: nat, now: real) {
    Agrees(states, log, now) && Paced(log, initial) && NoneAfterConfirmation(log) && Bounded(log, initial)
  }

  lemma SendAgrees(states: States, log: seq<Entry>, now: real, coin: string, kind: Kind, at: real)
    requires Agrees(states, log, now) && coin in states && now <= at
    ensures Agrees(states[coin := states[coin].RecordAttempt(kind, at)], log + [Sent(coin, kind, at)], at)
  {
    forall c, k
      ensures Count(log + [Sent(coin, kind, at)], c, k) == Count(log, c, k) + (if c == coin && k == kind then 1 else 0)
    {
      CountSnoc(log, Sent(coin, kind, at), c, k);
    }
  }

  /** A request for a kind that is due may be sent. */
  ghost predicate Due(log: seq<Entry>, coin: string, kind: Kind, at: real) {
    && Confirmation(coin, kind) !in log
    && Count(log, coin, kind) < MAX_ATTEMPTS
    && forall e :: e in log && Sends(e, coin, kind) ==> e.at + RETRY_SECS <= at
  }

  lemma SendInv(states: States, log: seq<Entry>, initial: nat, now: real,
                coin: string, kind: Kind, at: real)
    requires Inv(states, log, initial, now) && coin in states && now <= at && Due(log, coin, kind, at)
    ensures Inv(states[coin := states[coin].RecordAttempt(kind, at)], log + [Sent(coin, kind, at)], initial, at)
  {
    var e := Sent(coin, kind, at);
    SendAgrees(states, log, now, coin, kind, at);
    forall c, k
      ensures Count(log + [e], c, k) <= MAX_ATTEMPTS || Count(log + [e], c, k) <= Count((log + [e])[..initial], c, k)
    {
      CountSnoc(log, e, c, k);
      assert (log + [e])[..initial] == log[..initial];
    }
  }

  lemma InitialSendInv(states: States, log: seq<Entry>, now: real, coin: string, kind: Kind, at: real)
    requires Inv(states, log, |log|, now) && coin in states && now <= at
    requires forall e :: e in log ==> e.Sent?
    ensures Inv(states[coin := states[coin].RecordAttempt(kind, at)], log + [Sent(coin, kind, at)], |log| + 1, at)
  {
    SendAgrees(states, log, now, coin, kind, at);
    var log' := log + [Sent(coin, kind, at)];
    assert log'[..|log| + 1] == log';
  }

  lemma ConfirmInv(states: States, log: seq<Entry>, initial: nat, now: real, coin: string, kind: Kind)
    requires Inv(states, log, initial, now) && coin in states
    ensures Inv(states[coin := states[coin].RecordConfirmation(kind)], log + [Confirmation(coin, kind)], initial, now)
  {
    var e := Confirmation(coin, kind);
    forall c, k ensures Count(log + [e], c, k) == Count(log, c, k) { CountSnoc(log, e, c, k); }
    assert (log + [e])[..initial] == log[..initial];
  }

  lemma {:induction false} CountAt(log: seq<Entry>, i: nat, coin: string, kind: Kind)
    requires i < |log| && Sends(log[i], coin, kind)
    ensures Count(log, coin, kind) >= 1 + Count(log[..i], coin, kind)
  {
    var last := |log| - 1;
    if i == last {
    } else {
      CountAt(log[..last], i, coin, kind);
      assert log[..last][..i] == log[..i];
    }
  }

  lemma {:induction false} CountPrefix(log: seq<Entry>, n: nat, coin: string, kind: Kind)
    requires n <= |log|
    ensures Count(log[..n], coin, kind) <= Count(log, coin, kind)
  {
    var last := |log| - 1;
    if n < |log| {
      CountPrefix(log[..last], n, coin, kind);
      assert log[..last][..n] == log[..n];
    } else {
      assert log[..n] == log;
    }
  }

  /** For a coin that is configured once: at most three requests of each kind on a connection, any
      two of them at least five seconds apart. */
  lemma ThreeSpacedRequests(log: seq<Entry>, initial: nat, coin: string, kind: Kind)
    requires initial <= |log| && Paced(log, initial) && Bounded(log, initial)
    requires Count(log[..initial], coin, kind) <= 1
    ensures Count(log, coin, kind) <= 3
    ensures forall i, j :: 0 <= i < j < |log| && Sends(log[i], coin, kind) && Sends(log[j], coin, kind) ==>
              log[i].at + 5.0 <= log[j].at
  {
    forall i, j | 0 <= i < j < |log| && Sends(log[i], coin, kind) && Sends(log[j], coin, kind)
      ensures initial <= j
    {
      var opening := log[..initial];
      if j < initial {
        CountAt(opening, j, coin, kind);
        CountAt(opening[..j], i, coin, kind);
      }
    }
  }

  /** How often a coin is configured. */
  function Occurrences(pairs: seq<TradingPair>, coin: string): nat {
    OccurrencesIn(pairs, coin, |pairs|)
  }

  function OccurrencesIn(pairs: seq<TradingPair>, coin: string, n: nat): nat
    requires n <= |pairs|
  {
    if n == 0 then 0 else OccurrencesIn(pairs, coin, n - 1) + (if pairs[n - 1].coin == coin then 1 else 0)
  }

  ghost predicate Readings(clock: nat -> real, from: real) {
    from <= clock(0) && forall i: nat, j: nat {:trigger clock(i), clock(j)} :: i <= j ==> clock(i) <= clock(j)
  }

  lemma DueLater(log: seq<Entry>, coin: string, kind: Kind, at: real, later: real)
    requires Due(log, coin, kind, at) && at <= later
    ensures Due(log, coin, kind, later)
  {
  }

  /** Sending one request leaves the others due. */
  lemma DueStays(log: seq<Entry>, sent: Entry, coin: string, kind: Kind, at: real)
    requires Due(log, coin, kind, at) && sent.Sent? && !Sends(sent, coin, kind)
    ensures Due(log + [sent], coin, kind, at)
  {
    CountSnoc(log, sent, coin, kind);
  }

  lemma RetryIsDue(states: States, log: seq<Entry>, now: real, coin: string, kind: Kind, at: real)
    requires Agrees(states, log, now) && Retries(states, (coin, kind), at)
    ensures Due(log, coin, kind, at)
  {
  }

  // ----- which requests are made

  /** Subscribing to one pair: whether its first request can be written, and when its requests are made. */
  datatype Turn = Turn(written: bool, first: real, second: real)

  /** The first requests for a pair; when the first one cannot be written, the second is skipped. */
  function Requests(pair: TradingPair, turn: Turn): seq<Entry> {
    (if pair.subscribeTrades then [Sent(pair.coin, Trades, turn.first)] else []) +
    (if pair.subscribeOrderbook && (pair.subscribeTrades ==> turn.written)
     then [Sent(pair.coin, L2Book, turn.second)] else [])
  }

  /** Which requests these are, in their order. */
  lemma RequestsExactly(pair: TradingPair, turn: Turn)
    ensures var requests, trades := Requests(pair, turn), Sent(pair.coin, Trades, turn.first);
      var book := Sent(pair.coin, L2Book, turn.second);
      && (pair == TradingPair(pair.coin, false, false) ==> requests == [])
      && (pair == TradingPair(pair.coin, true, false) ==> requests == [trades])
      && (pair == TradingPair(pair.coin, false, true) ==> requests == [book])
      && (pair == TradingPair(pair.coin, true, true) ==> requests == if turn.written then [trades, book] else [trades])
  {
  }

  /** The first requests for the first `n` pairs. */
  function OpeningRequests(pairs: seq<TradingPair>, turns: seq<Turn>, n: nat): seq<Entry>
    requires n <= |pairs| == |turns|
  {
    if n == 0 then [] else OpeningRequests(pairs, turns, n - 1) + Requests(pairs[n - 1], turns[n - 1])
  }

  ghost predicate InTurn(turns: seq<Turn>, from: real) {
    && (forall i :: 0 <= i < |turns| ==> from <= turns[i].first <= turns[i].second)
    && (forall i, j :: 0 <= i < j < |turns| ==> turns[i].second <= turns[j].first)
  }

  /** A kind of a coin is wanted, unconfirmed and should be retried at time `at`. */
  predicate Retries(states: States, x: (string, Kind), at: real) {
    x.0 in states && states[x.0].Wanted(x.1) && !states[x.0].Confirmed(x.1) && states[x.0].ShouldRetry(x.1, at)
  }

  /** `toRetry` lists, once each, exactly the kinds that should be retried at the reading of the
      clock at which they were looked at. */
  ghost predicate Collected(states: States, clock: nat -> real, toRetry: seq<(string, Kind)>, tick: nat,
                            looked: map<(string, Kind), nat>) {
    && (forall x :: x in looked ==> looked[x] < tick && (x in toRetry <==> Retries(states, x, clock(looked[x]))))
    && (forall i :: 0 <= i < |toRetry| ==> toRetry[i] in looked)
    && (forall i, j :: 0 <= i < j < |toRetry| ==> toRetry[i] != toRetry[j])
  }

  /** It should be retried at one of the first `n` readings. */
  ghost predicate DueAtReading(states: States, x: (string, Kind), clock: nat -> real, n: nat) {
    exists k: nat :: k < n && Retries(states, x, clock(k))
  }

  lemma CollectedAreDue(states: States, clock: nat -> real, toRetry: seq<(string, Kind)>, tick: nat,
                        looked: map<(string, Kind), nat>)
    requires Collected(states, clock, toRetry, tick, looked)
    ensures forall x :: x in toRetry ==> DueAtReading(states, x, clock, tick)
  {
    forall x | x in toRetry ensures DueAtReading(states, x, clock, tick) {
      assert x in looked && Retries(states, x, clock(looked[x]));
    }
  }

  lemma CollectOne(states: States, clock: nat -> real, toRetry: seq<(string, Kind)>, tick: nat,
                   looked: map<(string, Kind), nat>, x: (string, Kind))
    requires Collected(states, clock, toRetry, tick, looked) && x !in looked
    ensures Collected(states, clock, if Retries(states, x, clock(tick)) then toRetry + [x] else toRetry, tick + 1,
                      looked[x := tick])
  {
  }

  /** Requests number 0 to `n` of a round of retries. */
  function Resent(toRetry: seq<(string, Kind)>, clock: nat -> real, tick: nat, n: nat): seq<Entry>
    requires n <= |toRetry|
  {
    if n == 0 then []
    else Resent(toRetry, clock, tick, n - 1) + [Sent(toRetry[n - 1].0, toRetry[n - 1].1, clock(tick + n - 1))]
  }

  /** The entries from `from` on are distinct, known and due at time `at`. */
  ghost predicate Retryable(states: States, log: seq<Entry>, toRetry: seq<(string, Kind)>, from: nat, at: real) {
    && (forall i :: from <= i < |toRetry| ==> toRetry[i].0 in states && Due(log, toRetry[i].0, toRetry[i].1, at))
    && (forall i, j :: 0 <= i < j < |toRetry| ==> toRetry[i] != toRetry[j])
  }

  lemma CollectedIsRetryable(states: States, log: seq<Entry>, now: real, clock: nat -> real,
                             toRetry: seq<(string, Kind)>, tick: nat, looked: map<(string, Kind), nat>)
    requires Agrees(states, log, now) && Readings(clock, now) && Collected(states, clock, toRetry, tick, looked)
    ensures Retryable(states, log, toRetry, 0, clock(tick))
  {
    forall i | 0 <= i < |toRetry|
      ensures toRetry[i].0 in states && Due(log, toRetry[i].0, toRetry[i].1, clock(tick))
    {
      var x := toRetry[i];
      var at := clock(looked[x]);
      RetryIsDue(states, log, now, x.0, x.1, at);
      DueLater(log, x.0, x.1, at, clock(tick));
    }
  }

  /** Nothing remains to be done for a kind: it is not wanted, confirmed, has had its three requests,
      or something was requested for its coin less than five seconds before `from` or later. */
  predicate Served(state: SubscriptionState, kind: Kind, from: real) {
    || !state.Wanted(kind) || state.Confirmed(kind) || state.Attempts(kind) >= MAX_ATTEMPTS
    || (state.lastAttempt.Some? && state.lastAttempt.value + RETRY_SECS > from)
  }

  /** Something was requested for the coin less than five seconds before `from` or later. */
  predicate RequestedSince(state: SubscriptionState, from: real) {
    state.lastAttempt.Some? && state.lastAttempt.value + 5.0 > from
  }

  /** What is wanted and unconfirmed has had its three requests, or something was requested recently. */
  predicate NothingLeft(state: SubscriptionState, from: real) {
    && (state.pair.subscribeTrades && !state.tradesConfirmed ==>
          state.tradesAttempts >= 3 || RequestedSince(state, from))
    && (state.pair.subscribeOrderbook && !state.orderbookConfirmed ==>
          state.orderbookAttempts >= 3 || RequestedSince(state, from))
  }

  lemma BothServed(state: SubscriptionState, from: real)
    requires Served(state, Trades, from) && Served(state, L2Book, from)
    ensures NothingLeft(state, from)
  {
  }

  /** Every kind of every coin is served or still to be requested. */
  ghost predicate Complete(states: States, toRetry: seq<(string, Kind)>, done: nat, from: real)
    requires done <= |toRetry|
  {
    forall coin, kind :: coin in states ==> Served(states[coin], kind, from) || (coin, kind) in toRetry[done..]
  }

  lemma CollectedIsComplete(states: States, clock: nat -> real, now: real,
                            toRetry: seq<(string, Kind)>, tick: nat, looked: map<(string, Kind), nat>)
    requires Readings(clock, now) && Collected(states, clock, toRetry, tick, looked)
    requires forall coin, kind :: coin in states ==> (coin, kind) in looked
    ensures Complete(states, toRetry, 0, clock(0))
  {
    forall coin, kind | coin in states && !Served(states[coin], kind, clock(0))
      ensures (coin, kind) in toRetry[0..]
    {
      assert clock(0) <= clock(looked[(coin, kind)]);
    }
  }

  lemma SendCompletes(states: States, toRetry: seq<(string, Kind)>, done: nat, from: real, at: real)
    requires done < |toRetry| && from <= at && Complete(states, toRetry, done, from)
    ensures Complete(Attempted(states, toRetry[done].0, toRetry[done].1, at), toRetry, done + 1, from)
  {
    assert toRetry[done..] == [toRetry[done]] + toRetry[done + 1..];
  }

  // ----- a session as a value

  /** The states of a connection, what has happened on it, how many of these were the requests made
      when it was opened, and the time of the last request. */
  datatype Session = Session(states: States, log: seq<Entry>, initial: nat, now: real)

  /** An attempt is recorded if the coin is known. */
  function Attempted(states: States, coin: string, kind: Kind, at: real): States {
    if coin in states then states[coin := states[coin].RecordAttempt(kind, at)] else states
  }

  function Send(s: Session, coin: string, kind: Kind, at: real): Session {
    Session(Attempted(s.states, coin, kind, at), s.log + [Sent(coin, kind, at)], s.initial, at)
  }

  /** The session after a number of requests. */
  function SendAll(s: Session, requests: seq<Entry>): Session {
    if requests == [] then s
    else
      var before := SendAll(s, requests[..|requests| - 1]);
      match requests[|requests| - 1]
      case Sent(coin, kind, at) => Send(before, coin, kind, at)
      case Confirmation(_, _) => before
  }

  lemma SendOneMore(s: Session, requests: seq<Entry>, coin: string, kind: Kind, at: real)
    ensures SendAll(s, requests + [Sent(coin, kind, at)]) == Send(SendAll(s, requests), coin, kind, at)
  {
    assert (requests + [Sent(coin, kind, at)])[..|requests|] == requests;
  }

  /** The session after subscribing to one pair. */
  function Ask(s: Session, pair: TradingPair, turn: Turn): Session {
    var t := if pair.subscribeTrades then Send(s, pair.coin, Trades, turn.first) else s;
    if pair.subscribeOrderbook && (pair.subscribeTrades ==> turn.written)
    then Send(t, pair.coin, L2Book, turn.second) else t
  }

  lemma AskSends(s: Session, requests: seq<Entry>, pair: TradingPair, turn: Turn)
    ensures Ask(SendAll(s, requests), pair, turn) == SendAll(s, requests + Requests(pair, turn))
  {
    var trades := if pair.subscribeTrades then [Sent(pair.coin, Trades, turn.first)] else [];
    var book := [Sent(pair.coin, L2Book, turn.second)];
    SendOneMore(s, requests, pair.coin, Trades, turn.first);
    SendOneMore(s, requests + trades, pair.coin, L2Book, turn.second);
    assert requests + trades + book == requests + (trades + book) && trades + [] == trades && requests + [] == requests;
  }

  /** The session after subscribing to the first `n` pairs, one after the other. */
  function AskAll(s: Session, pairs: seq<TradingPair>, turns: seq<Turn>, n: nat): Session
    requires n <= |pairs| == |turns|
  {
    if n == 0 then s else Ask(AskAll(s, pairs, turns, n - 1), pairs[n - 1], turns[n - 1])
  }

  lemma {:induction false} AskAllSends(s: Session, pairs: seq<TradingPair>, turns: seq<Turn>, n: nat)
    requires n <= |pairs| == |turns|
    ensures AskAll(s, pairs, turns, n) == SendAll(s, OpeningRequests(pairs, turns, n))
  {
    if n == 0 {
    } else {
      AskAllSends(s, pairs, turns, n - 1);
      AskSends(s, OpeningRequests(pairs, turns, n - 1), pairs[n - 1], turns[n - 1]);
    }
  }

  /** Nothing but attempts differs: coins, pairs and confirmations are the same. */
  ghost predicate SameButAttempts(states: States, later: States) {
    && later.Keys == states.Keys
    && forall coin :: coin in states ==>
         && later[coin].pair == states[coin].pair
         && later[coin].tradesConfirmed == states[coin].tradesConfirmed
         && later[coin].orderbookConfirmed == states[coin].orderbookConfirmed
  }

  lemma SendChangesAttempts(before: States, states: States, coin: string, kind: Kind, at: real)
    requires SameButAttempts(before, states)
    ensures SameButAttempts(before, Attempted(states, coin, kind, at))
  {
  }

  /** Sending appends the requests to the log and changes nothing but attempts. */
  lemma {:induction false} SendAllLogs(s: Session, requests: seq<Entry>)
    requires forall e :: e in requests ==> e.Sent?
    ensures var t := SendAll(s, requests);
      t.log == s.log + requests && t.initial == s.initial && SameButAttempts(s.states, t.states)
  {
    if requests == [] {
    } else {
      var before, e := requests[..|requests| - 1], requests[|requests| - 1];
      SendAllLogs(s, before);
      SendChangesAttempts(s.states, SendAll(s, before).states, e.coin, e.kind, e.at);
      assert requests == before + [e];
    }
  }

  /** Every pair has a state, and every state belongs to a pair. */
  ghost predicate Known(states: States, pairs: seq<TradingPair>) {
    && (forall k :: 0 <= k < |pairs| ==> pairs[k].coin in states)
    && (forall coin :: coin in states ==> states[coin].pair in pairs && states[coin].pair.coin == coin)
  }

  lemma KnownLater(states: States, later: States, pairs: seq<TradingPair>)
    requires Known(states, pairs) && SameButAttempts(states, later)
    ensures Known(later, pairs)
  {
  }

  function ResetStates(states: States): States {
    map coin | coin in states :: Reset(states[coin].pair)
  }

  /** The session of a new connection, before any request. */
  function Fresh(s: Session): Session {
    Session(ResetStates(s.states), [], 0, s.now)
  }

  ghost predicate SessionValid(s: Session, pairs: seq<TradingPair>) {
    && Inv(s.states, s.log, s.initial, s.now)
    && Known(s.states, pairs)
    && (forall coin, kind :: Count(s.log[..s.initial], coin, kind) <= Occurrences(pairs, coin))
  }

  /** All requests so far are those of the opening. */
  ghost predicate Asking(s: Session) {
    Inv(s.states, s.log, |s.log|, s.now) && forall e :: e in s.log ==> e.Sent?
  }

  lemma SendAsking(s: Session, coin: string, kind: Kind, at: real)
    requires Asking(s) && coin in s.states && s.now <= at
    ensures Asking(Send(s, coin, kind, at))
  {
    InitialSendInv(s.states, s.log, s.now, coin, kind, at);
  }

  /** Requests for known coins, in order of time. */
  ghost predicate Timely(states: States, requests: seq<Entry>, from: real, until: real) {
    && from <= until
    && (forall i :: 0 <= i < |requests| ==> requests[i].Sent? && requests[i].coin in states)
    && (forall i :: 0 <= i < |requests| ==> from <= requests[i].at <= until)
    && (forall i, j :: 0 <= i < j < |requests| ==> requests[i].at <= requests[j].at)
  }

  lemma {:induction false} SendAllAsking(s: Session, requests: seq<Entry>, until: real)
    requires Asking(s) && Timely(s.states, requests, s.now, until)
    ensures Asking(SendAll(s, requests)) && SendAll(s, requests).states.Keys == s.states.Keys
    ensures SendAll(s, requests).now <= until
  {
    if requests == [] {
    } else {
      var e := requests[|requests| - 1];
      SendAllAsking(s, requests[..|requests| - 1], e.at);
      SendAsking(SendAll(s, requests[..|requests| - 1]), e.coin, e.kind, e.at);
    }
  }

  lemma TimelyRequests(states: States, requests: seq<Entry>, pair: TradingPair, turn: Turn, from: real, since: real)
    requires Timely(states, requests, from, since) && pair.coin in states && since <= turn.first <= turn.second
    ensures Timely(states, requests + Requests(pair, turn), from, turn.second)
  {
  }

  lemma {:induction false} OpeningIsTimely(states: States, pairs: seq<TradingPair>, turns: seq<Turn>,
                                           from: real, n: nat)
    requires n <= |pairs| == |turns| && InTurn(turns, from)
    requires forall k :: 0 <= k < |pairs| ==> pairs[k].coin in states
    ensures Timely(states, OpeningRequests(pairs, turns, n), from, if n == 0 then from else turns[n - 1].second)
  {
    if n == 0 {
    } else {
      OpeningIsTimely(states, pairs, turns, from, n - 1);
      var before, since := OpeningRequests(pairs, turns, n - 1), if n == 1 then from else turns[n - 2].second;
      TimelyRequests(states, before, pairs[n - 1], turns[n - 1], from, since);
    }
  }

  lemma CountOptional(log: seq<Entry>, e: Entry, present: bool, coin: string, kind: Kind)
    ensures Count(log + (if present then [e] else []), coin, kind) ==
            Count(log, coin, kind) + (if present && Sends(e, coin, kind) then 1 else 0)
  {
    if present {
      CountSnoc(log, e, coin, kind);
    } else {
      assert log + [] == log;
    }
  }

  lemma TwoParts(log: seq<Entry>, a: seq<Entry>, b: seq<Entry>)
    ensures log + a + b == log + (a + b)
  {
  }

  lemma RequestsCount(log: seq<Entry>, pair: TradingPair, turn: Turn, coin: string, kind: Kind)
    ensures Count(log + Requests(pair, turn), coin, kind) <=
            Count(log, coin, kind) + (if coin == pair.coin then 1 else 0)
  {
    var book := pair.subscribeOrderbook && (pair.subscribeTrades ==> turn.written);
    var first, second := Sent(pair.coin, Trades, turn.first), Sent(pair.coin, L2Book, turn.second);
    var a, b := if pair.subscribeTrades then [first] else [], if book then [second] else [];
    CountOptional(log, first, pair.subscribeTrades, coin, kind);
    CountOptional(log + a, second, book, coin, kind);
    TwoParts(log, a, b);
  }

  lemma OpeningCountsStep(pairs: seq<TradingPair>, turns: seq<Turn>, coin: string, kind: Kind, m: nat, n: nat)
    requires n == m + 1 <= |pairs| == |turns|
    requires Count(OpeningRequests(pairs, turns, m), coin, kind) <= OccurrencesIn(pairs, coin, m)
    ensures Count(OpeningRequests(pairs, turns, n), coin, kind) <= OccurrencesIn(pairs, coin, n)
  {
    RequestsCount(OpeningRequests(pairs, turns, m), pairs[m], turns[m], coin, kind);
  }

  /** Each kind of a coin is asked for at most as often as the coin is configured. */
  lemma {:induction false} OpeningCounts(pairs: seq<TradingPair>, turns: seq<Turn>, coin: string, kind: Kind, n: nat)
    requires n <= |pairs| == |turns|
    ensures Count(OpeningRequests(pairs, turns, n), coin, kind) <= OccurrencesIn(pairs, coin, n)
  {
    if n == 0 {
    } else {
      OpeningCounts(pairs, turns, coin, kind, n - 1);
      OpeningCountsStep(pairs, turns, coin, kind, n - 1, n);
    }
  }

  lemma AllOpeningCounts(pairs: seq<TradingPair>, turns: seq<Turn>)
    requires |pairs| == |turns|
    ensures forall coin, kind :: Count(OpeningRequests(pairs, turns, |pairs|), coin, kind) <= Occurrences(pairs, coin)
  {
    forall coin, kind
      ensures Count(OpeningRequests(pairs, turns, |pairs|), coin, kind) <= Occurrences(pairs, coin)
    {
      OpeningCounts(pairs, turns, coin, kind, |pairs|);
    }
  }

  /** The session of a connection on which every pair has been subscribed to. */
  function Opened(s: Session, requests: seq<Entry>): Session {
    SendAll(Fresh(s), requests).(initial := |requests|)
  }

  lemma FreshAsks(s: Session, pairs: seq<TradingPair>)
    requires SessionValid(s, pairs)
    ensures Asking(Fresh(s)) && Known(Fresh(s).states, pairs)
  {
  }

  lemma OpeningValid(t: Session, pairs: seq<TradingPair>)
    requires Asking(t) && Known(t.states, pairs)
    requires forall coin, kind :: Count(t.log, coin, kind) <= Occurrences(pairs, coin)
    ensures SessionValid(t.(initial := |t.log|), pairs)
  {
    assert t.log[..|t.log|] == t.log;
  }

  /** Opening a connection makes exactly the given requests and leaves a valid session, if they are in
      order of time and ask for each kind of a coin at most as often as the coin is configured. */
  lemma OpenedIsValid(s: Session, pairs: seq<TradingPair>, requests: seq<Entry>, until: real)
    requires SessionValid(s, pairs) && Timely(Fresh(s).states, requests, s.now, until)
    requires forall coin, kind :: Count(requests, coin, kind) <= Occurrences(pairs, coin)
    ensures SessionValid(Opened(s, requests), pairs) && Opened(s, requests).log == requests
  {
    FreshAsks(s, pairs);
    SendAllAsking(Fresh(s), requests, until);
    AllSent(Fresh(s).states, requests, s.now, until);
    OpenedLogs(s, requests);
    KnownLater(Fresh(s).states, SendAll(Fresh(s), requests).states, pairs);
    OpeningValid(SendAll(Fresh(s), requests), pairs);
  }

  lemma OpenedLogs(s: Session, requests: seq<Entry>)
    requires forall e :: e in requests ==> e.Sent?
    ensures var t := SendAll(Fresh(s), requests);
      t.log == requests && SameButAttempts(Fresh(s).states, t.states) && Opened(s, requests) == t.(initial := |t.log|)
  {
    SendAllLogs(Fresh(s), requests);
  }

  lemma OpeningIsValid(s: Session, pairs: seq<TradingPair>, turns: seq<Turn>)
    requires |pairs| == |turns| && SessionValid(s, pairs) && InTurn(turns, s.now)
    ensures var requests := OpeningRequests(pairs, turns, |pairs|);
      SessionValid(Opened(s, requests), pairs) && Opened(s, requests).log == requests
  {
    FreshAsks(s, pairs);
    OpeningIsTimely(Fresh(s).states, pairs, turns, s.now, |pairs|);
    AllOpeningCounts(pairs, turns);
    var until := if pairs == [] then s.now else turns[|pairs| - 1].second;
    OpenedIsValid(s, pairs, OpeningRequests(pairs, turns, |pairs|), until);
  }

  lemma AllSent(states: States, requests: seq<Entry>, from: real, until: real)
    requires Timely(states, requests, from, until)
    ensures forall e :: e in requests ==> e.Sent?
  {
  }

  lemma SendValid(s: Session, pairs: seq<TradingPair>, coin: string, kind: Kind, at: real)
    requires SessionValid(s, pairs) && coin in s.states && s.now <= at && Due(s.log, coin, kind, at)
    ensures SessionValid(Send(s, coin, kind, at), pairs)
  {
    SendInv(s.states, s.log, s.initial, s.now, coin, kind, at);
    assert (s.log + [Sent(coin, kind, at)])[..s.initial] == s.log[..s.initial];
  }

  lemma SendKeepsRetryable(s: Session, toRetry: seq<(string, Kind)>, i: nat, at: real, later: real)
    requires i < |toRetry| && Retryable(s.states, s.log, toRetry, i, at) && at <= later
    ensures var t := Send(s, toRetry[i].0, toRetry[i].1, at); Retryable(t.states, t.log, toRetry, i + 1, later)
  {
    var (coin, kind) := toRetry[i];
    var sent := Sent(coin, kind, at);
    forall j | i < j < |toRetry| ensures Due(s.log + [sent], toRetry[j].0, toRetry[j].1, later) {
      DueStays(s.log, sent, toRetry[j].0, toRetry[j].1, at);
      DueLater(s.log + [sent], toRetry[j].0, toRetry[j].1, at, later);
    }
  }

  lemma ResentOneMore(s: Session, toRetry: seq<(string, Kind)>, clock: nat -> real, tick: nat, n: nat)
    requires n < |toRetry|
    ensures SendAll(s, Resent(toRetry, clock, tick, n + 1)) ==
            Send(SendAll(s, Resent(toRetry, clock, tick, n)), toRetry[n].0, toRetry[n].1, clock(tick + n))
  {
    SendOneMore(s, Resent(toRetry, clock, tick, n), toRetry[n].0, toRetry[n].1, clock(tick + n));
  }

  /** A valid session in the middle of a round of retries. */
  ghost predicate InRound(t: Session, pairs: seq<TradingPair>, toRetry: seq<(string, Kind)>, i: nat, at: real) {
    SessionValid(t, pairs) && t.now <= at && Retryable(t.states, t.log, toRetry, i, at)
  }

  lemma RetryStep(t: Session, u: Session, pairs: seq<TradingPair>, toRetry: seq<(string, Kind)>, i: nat,
                  at: real, later: real)
    requires InRound(t, pairs, toRetry, i, at) && i < |toRetry| && at <= later
    requires u == Send(t, toRetry[i].0, toRetry[i].1, at)
    ensures InRound(u, pairs, toRetry, i + 1, later)
  {
    SendValid(t, pairs, toRetry[i].0, toRetry[i].1, at);
    SendKeepsRetryable(t, toRetry, i, at, later);
  }

  lemma RetryNumber(s: Session, u: Session, pairs: seq<TradingPair>, toRetry: seq<(string, Kind)>,
                    clock: nat -> real, tick: nat, i: nat)
    requires i < |toRetry| && Readings(clock, s.now)
    requires InRound(SendAll(s, Resent(toRetry, clock, tick, i)), pairs, toRetry, i, clock(tick + i))
    requires u == SendAll(s, Resent(toRetry, clock, tick, i + 1))
    ensures InRound(u, pairs, toRetry, i + 1, clock(tick + i + 1))
  {
    var t := SendAll(s, Resent(toRetry, clock, tick, i));
    ResentOneMore(s, toRetry, clock, tick, i);
    RetryStep(t, u, pairs, toRetry, i, clock(tick + i), clock(tick + i + 1));
  }

  /** A round of retries keeps the session valid. */
  lemma {:induction false} ResentIsValid(s: Session, u: Session, pairs: seq<TradingPair>,
                                         toRetry: seq<(string, Kind)>, clock: nat -> real, tick: nat, n: nat)
    requires n <= |toRetry| && SessionValid(s, pairs) && Readings(clock, s.now)
    requires Retryable(s.states, s.log, toRetry, 0, clock(tick))
    requires u == SendAll(s, Resent(toRetry, clock, tick, n))
    ensures InRound(u, pairs, toRetry, n, clock(tick + n))
    decreases n
  {
    if n == 0 {
    } else {
      var t := SendAll(s, Resent(toRetry, clock, tick, n - 1));
      ResentIsValid(s, t, pairs, toRetry, clock, tick, n - 1);
      RetryNumber(s, u, pairs, toRetry, clock, tick, n - 1);
    }
  }

  lemma {:induction false} ResentAreSent(toRetry: seq<(string, Kind)>, clock: nat -> real, tick: nat, n: nat)
    requires n <= |toRetry|
    ensures forall e :: e in Resent(toRetry, clock, tick, n) ==> e.Sent?
  {
    if n == 0 {
    } else {
      ResentAreSent(toRetry, clock, tick, n - 1);
    }
  }

  /** It leaves nothing to be done. */
  lemma {:induction false} ResentServes(s: Session, toRetry: seq<(string, Kind)>, clock: nat -> real, tick: nat, n: nat)
    requires n <= |toRetry| && Readings(clock, s.now) && Complete(s.states, toRetry, 0, clock(0))
    ensures Complete(SendAll(s, Resent(toRetry, clock, tick, n)).states, toRetry, n, clock(0))
  {
    if n == 0 {
    } else {
      var t := SendAll(s, Resent(toRetry, clock, tick, n - 1));
      ResentServes(s, toRetry, clock, tick, n - 1);
      SendCompletes(t.states, toRetry, n - 1, clock(0), clock(tick + n - 1));
      ResentOneMore(s, toRetry, clock, tick, n - 1);
    }
  }

  class Connection {
    const subscriptions: seq<TradingPair>
    var states: States

    ghost var log: seq<Entry>
    ghost var initial: nat
    ghost var now: real

    ghost function View(): Session
      reads this
    {
      Session(states, log, initial, now)
    }

    ghost predicate Valid()
      reads this
    {
      SessionValid(View(), subscriptions)
    }

    constructor (subscriptions: seq<TradingPair>)
      ensures Valid() && this.subscriptions == subscriptions && log == []
    {
      this.subscriptions := subscriptions;
      states, log, initial, now := map[], [], 0, 0.0;
      new;
      for k := 0 to |subscriptions|
        invariant forall i :: 0 <= i < k ==> subscriptions[i].coin in states
        invariant forall coin :: coin in states ==> states[coin] == Reset(states[coin].pair)
        invariant forall coin :: coin in states ==> states[coin].pair in subscriptions && states[coin].pair.coin == coin
        invariant log == [] && initial == 0
      {
        states := states[subscriptions[k].coin := Reset(subscriptions[k])];
      }
    }

    method SendSubscription(coin: string, kind: Kind, at: real)
      modifies this`states, this`log, this`now
      ensures View() == Send(old(View()), coin, kind, at)
    {
      if coin in states {
        states := states[coin := states[coin].RecordAttempt(kind, at)];
      }
      log, now := log + [Sent(coin, kind, at)], at;
    }

    /** A new connection: the states are reset and the first requests are made pair by pair. */
    method Open(turns: seq<Turn>)
      requires Valid() && |turns| == |subscriptions| && InTurn(turns, now)
      modifies this
      ensures Valid()
      ensures View() == Opened(old(View()), OpeningRequests(subscriptions, turns, |subscriptions|))
      ensures log == OpeningRequests(subscriptions, turns, |subscriptions|) && initial == |log|
    {
      OpeningIsValid(View(), subscriptions, turns);
      ResetAndSubscribe(turns);
    }

    method ResetAndSubscribe(turns: seq<Turn>)
      requires |turns| == |subscriptions|
      modifies this
      ensures View() == Opened(old(View()), OpeningRequests(subscriptions, turns, |subscriptions|))
    {
      ghost var requests := OpeningRequests(subscriptions, turns, |subscriptions|);
      states := ResetStates(states);
      log, initial := [], 0;
      AskAllSends(View(), subscriptions, turns, |subscriptions|);
      SubscribeAll(turns);
      initial := |requests|;
    }

    method SubscribeAll(turns: seq<Turn>)
      requires |turns| == |subscriptions|
      modifies this`states, this`log, this`now
      ensures View() == AskAll(old(View()), subscriptions, turns, |subscriptions|)
    {
      for k := 0 to |subscriptions|
        invariant View() == AskAll(old(View()), subscriptions, turns, k)
      {
        SubscribeWithRetry(subscriptions[k], turns[k]);
      }
    }

    method SubscribeWithRetry(pair: TradingPair, turn: Turn)
      modifies this`states, this`log, this`now
      ensures View() == Ask(old(View()), pair, turn)
      ensures log == old(log) + Requests(pair, turn)
    {
      if pair.subscribeTrades {
        SendSubscription(pair.coin, Trades, turn.first);
        if !turn.written {
          return;
        }
      }
      if pair.subscribeOrderbook {
        SendSubscription(pair.coin, L2Book, turn.second);
      }
    }

    /** Exactly what is wanted, unconfirmed and due, in the arbitrary order of the map; `looked` says
        at which reading of the clock each kind of each coin was looked at. */
    method CollectRetries(clock: nat -> real)
        returns (toRetry: seq<(string, Kind)>, tick: nat, ghost looked: map<(string, Kind), nat>)
      ensures Collected(states, clock, toRetry, tick, looked)
      ensures forall coin, kind :: (coin, kind) in looked <==> coin in states
      ensures forall x :: x in toRetry ==> DueAtReading(states, x, clock, tick)
    {
      toRetry, tick, looked := [], 0, map[];
      var rest := states.Keys;
      while rest != {}
        invariant rest <= states.Keys
        invariant Collected(states, clock, toRetry, tick, looked)
        invariant forall coin, kind :: (coin, kind) in looked <==> coin in states && coin !in rest
      {
        var coin :| coin in rest;
        var state := states[coin];
        CollectOne(states, clock, toRetry, tick, looked, (coin, Trades));
        if state.pair.subscribeTrades && !state.tradesConfirmed && state.ShouldRetry(Trades, clock(tick)) {
          toRetry := toRetry + [(coin, Trades)];
        }
        tick, looked := tick + 1, looked[(coin, Trades) := tick];
        CollectOne(states, clock, toRetry, tick, looked, (coin, L2Book));
        if state.pair.subscribeOrderbook && !state.orderbookConfirmed && state.ShouldRetry(L2Book, clock(tick)) {
          toRetry := toRetry + [(coin, L2Book)];
        }
        tick, looked := tick + 1, looked[(coin, L2Book) := tick];
        rest := rest - {coin};
        AllLooked(states, rest, looked, coin);
      }
      CollectedAreDue(states, clock, toRetry, tick, looked);
    }

    /** What is due is collected first and then requested again; after the round everything is
        served. */
    method RetryFailedSubscriptions(clock: nat -> real)
        returns (ghost toRetry: seq<(string, Kind)>, ghost tick: nat, ghost looked: map<(string, Kind), nat>)
      requires Valid() && Readings(clock, now)
      modifies this`states, this`log, this`now
      ensures Valid() && SameButAttempts(old(states), states)
      ensures Collected(old(states), clock, toRetry, tick, looked)
      ensures forall coin, kind :: (coin, kind) in looked <==> coin in old(states)
      ensures log == old(log) + Resent(toRetry, clock, tick, |toRetry|)
      ensures forall coin, kind :: coin in states ==> Served(states[coin], kind, clock(0))
      ensures forall coin :: coin in states ==> NothingLeft(states[coin], clock(0))
    {
      var found, at;
      found, at, looked := CollectRetries(clock);
      toRetry, tick := found, at;
      CollectedIsRetryable(states, log, now, clock, found, at, looked);
      CollectedIsComplete(states, clock, now, found, at, looked);
      ghost var after := SendAll(View(), Resent(found, clock, at, |found|));
      ResentIsValid(View(), after, subscriptions, found, clock, at, |found|);
      ResentServes(View(), found, clock, at, |found|);
      ResentAreSent(found, clock, at, |found|);
      SendAllLogs(View(), Resent(found, clock, at, |found|));
      ResendAll(found, clock, at);
      forall coin | coin in states ensures NothingLeft(states[coin], clock(0)) {
        BothServed(states[coin], clock(0));
      }
    }

    method ResendAll(toRetry: seq<(string, Kind)>, clock: nat -> real, tick: nat)
      modifies this`states, this`log, this`now
      ensures View() == SendAll(old(View()), Resent(toRetry, clock, tick, |toRetry|))
    {
      for i := 0 to |toRetry|
        invariant View() == SendAll(old(View()), Resent(toRetry, clock, tick, i))
      {
        ResentOneMore(old(View()), toRetry, clock, tick, i);
        SendSubscription(toRetry[i].0, toRetry[i].1, clock(tick + i));
      }
    }

    method HandleSubscriptionResponse(coin: string, subscriptionType: string, success: bool)
      requires Valid()
      modifies this`states, this`log
      ensures Valid()
      ensures View() == if coin in old(states) && success && KindOf(subscriptionType).Some?
                        then Confirm(old(View()), coin, KindOf(subscriptionType).value) else old(View())
      ensures coin in old(states) && success && subscriptionType == "trades" ==>
        states == old(states)[coin := old(states)[coin].(tradesConfirmed := true)]
      ensures coin in old(states) && success && subscriptionType == "l2Book" ==>
        states == old(states)[coin := old(states)[coin].(orderbookConfirmed := true)]
      ensures coin !in old(states) || !success || subscriptionType !in ["trades", "l2Book"] ==>
        states == old(states) && log == old(log)
    {
      if coin in states {
        if success {
          match KindOf(subscriptionType) {
            case Some(kind) =>
              ConfirmValid(View(), subscriptions, coin, kind);
              states := states[coin := states[coin].RecordConfirmation(kind)];
              log := log + [Confirmation(coin, kind)];
            case None =>
          }
        }
      }
    }
  }

  lemma AllLooked(states: States, rest: set<string>, looked: map<(string, Kind), nat>, coin: string)
    requires (coin, Trades) in looked && (coin, L2Book) in looked && coin in states && coin !in rest
    requires forall c, kind :: c != coin ==> ((c, kind) in looked <==> c in states && c !in rest)
    ensures forall c, kind :: (c, kind) in looked <==> c in states && c !in rest
  {
    forall kind: Kind ensures (coin, kind) in looked {
      match kind
      case Trades =>
      case L2Book =>
    }
  }

  function Confirm(s: Session, coin: string, kind: Kind): Session
    requires coin in s.states
  {
    s.(states := s.states[coin := s.states[coin].RecordConfirmation(kind)], log := s.log + [Confirmation(coin, kind)])
  }

  lemma ConfirmValid(s: Session, pairs: seq<TradingPair>, coin: string, kind: Kind)
    requires SessionValid(s, pairs) && coin in s.states
    ensures SessionValid(Confirm(s, coin, kind), pairs)
  {
    ConfirmInv(s.states, s.log, s.initial, s.now, coin, kind);
    assert (s.log + [Confirmation(coin, kind)])[..s.initial] == s.log[..s.initial];
  }

  lemma {:induction false} OccursOnce(pairs: seq<TradingPair>, coin: string, n: nat)
    requires n <= |pairs| && forall i, j :: 0 <= i < j < |pairs| ==> pairs[i].coin != pairs[j].coin
    ensures OccurrencesIn(pairs, coin, n) <= 1
    ensures (forall i :: 0 <= i < n ==> pairs[i].coin != coin) ==> OccurrencesIn(pairs, coin, n) == 0
  {
    if n == 0 {
    } else {
      OccursOnce(pairs, coin, n - 1);
    }
  }

  /** With distinct coins, in every state of a connection: at most three requests of each kind for each
      coin, any two of them five seconds apart, and none after its confirmation. */
  lemma DistinctCoins(connection: Connection, coin: string, kind: Kind)
    requires connection.Valid()
    requires forall i, j :: 0 <= i < j < |connection.subscriptions| ==>
               connection.subscriptions[i].coin != connection.subscriptions[j].coin
    ensures var log := connection.log;
      && Count(log, coin, kind) <= 3
      && (forall i, j :: 0 <= i < j < |log| && Sends(log[i], coin, kind) && Sends(log[j], coin, kind) ==>
            log[i].at + 5.0 <= log[j].at)
      && (forall i, j :: 0 <= i < j < |log| && log[i] == Confirmation(coin, kind) ==> !Sends(log[j], coin, kind))
  {
    OccursOnce(connection.subscriptions, coin, |connection.subscriptions|);
    ThreeSpacedRequests(connection.log, connection.initial, coin, kind);
  }
}
