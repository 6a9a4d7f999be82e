/** Retried RCON requests: the player count and the world save. */
module Rcon {
  import opened Basics
  import opened Text
  import opened PlayerCount
  import opened Outside

  /** `World saved` or `World is saved`, and nothing else. */
  predicate ConfirmsSave(response: string) {
    match DropWord(Trim(StripAnsi(response)), "world")
    case None => false
    case Some(gap) =>
      && gap != "" && IsSpace(gap[0])
      && (EndsWithSaved(DropSpaces(gap))
          || match DropWord(DropSpaces(gap), "is")
             case None => false
             case Some(rest) => rest != "" && IsSpace(rest[0]) && EndsWithSaved(DropSpaces(rest)))
  }

  predicate EndsWithSaved(s: string) {
    DropWord(s, "saved") == Some("")
  }

  /** The longest that `attempts` requests with pauses between them can take. */
  function LongestRequest(attempts: nat, timeout: real, delay: real): real {
    if attempts == 0 then 0.0
    else if attempts == 1 then timeout
    else LongestRequest(attempts - 1, timeout, delay) + delay + timeout
  }

  lemma {:induction false} LongestRequestIs(attempts: nat, timeout: real, delay: real)
    requires attempts > 0
    ensures LongestRequest(attempts, timeout, delay) == attempts as real * timeout + (attempts - 1) as real * delay
  {
    if attempts > 1 {
      LongestRequestIs(attempts - 1, timeout, delay);
      Distribute((attempts - 1) as real, timeout);
      Distribute((attempts - 2) as real, delay);
    }
  }

  lemma Distribute(x: real, c: real)
    ensures (x + 1.0) * c == x * c + c
  {
  }

  lemma {:induction false} LongestRequestIsMonotone(m: nat, n: nat, timeout: real, delay: real)
    requires timeout >= 0.0 && delay >= 0.0 && m <= n
    ensures 0.0 <= LongestRequest(m, timeout, delay) <= LongestRequest(n, timeout, delay)
    decreases n, m
  {
    if m < n {
      LongestRequestIsMonotone(m, n - 1, timeout, delay);
    } else if m > 0 {
      LongestRequestIsMonotone(m - 1, m - 1, timeout, delay);
    }
  }

  /** `n` pauses of `d` seconds: n * d. */
  function Pauses(n: nat, d: real): real {
    if n == 0 then 0.0 else Pauses(n - 1, d) + d
  }

  lemma {:induction false} PausesMultiply(n: nat, d: real)
    ensures Pauses(n, d) == n as real * d
  {
    if n > 0 {
      PausesMultiply(n - 1, d);
      Distribute((n - 1) as real, d);
    }
  }

  /** A client that sends one command, and the retry discipline around it. */
  class RconSession {
    const env: Environment
    const attempts: nat
    const timeout: real
    const delay: real
    const parse: string -> Result<nat>

    constructor (env: Environment, attempts: nat, timeout: real, delay: real)
      ensures this.env == env && this.attempts == attempts && this.timeout == timeout && this.delay == delay
      ensures ParsesListings()
    {
      this.env, this.attempts, this.timeout, this.delay := env, attempts, timeout, delay;
      parse := WatchdogCount;
    }

    /** Responses are read by parse_player_count. */
    ghost predicate ParsesListings() {
      forall text :: parse(text) == WatchdogCount(text)
    }

    predicate Valid() {
      timeout >= 0.0 && delay >= 0.0
    }

    function Longest(): real {
      LongestRequest(attempts, timeout, delay)
    }

    /** The count the k-th answer yields. */
    function CountAt(k: nat): Result<nat> {
      match env.answers(k).text
      case Ok(text) => parse(text)
      case Err => Err
    }

    /** A known count is what the k-th answer yields. */
    predicate Answers(k: nat, observation: Observation) {
      observation.Known? ==> CountAt(k) == Ok(observation.count)
    }

    /** The k-th answer is a response that announces `n` and lists that many names. */
    predicate Announces(k: nat, n: nat) {
      env.answers(k).text.Ok? &&
      var lines := ResponseLines(env.answers(k).text.value);
      && lines != [] && Lists(lines, n)
      && (ParenthesizedHeader(lines[0]) == Some(n) || ColonHeader(lines[0]) == Some(n))
    }

    /** No count without a response that announces it and lists that many names: a known zero
        is never the product of a failed or unreadable answer. */
    lemma CountWasAnswered(k: nat, n: nat)
      requires ParsesListings()
      ensures CountAt(k) == Ok(n) <==> Announces(k, n)
    {
      if env.answers(k).text.Ok? {
        CountIsExact(env.answers(k).text.value, n);
      }
    }

    predicate SaveAt(k: nat) {
      env.answers(k).text.Ok? && ConfirmsSave(env.answers(k).text.value)
    }

    /** RetryingPlayerCounter.query: the first readable response decides, and only exhausting
        every attempt makes the state unknown. */
    method Query() returns (observation: Observation)
      requires Valid()
      modifies env
      ensures env.log == old(env.log) + [Asked(observation)]
      ensures old(env.now) <= env.now <= old(env.now) + Longest()
      ensures old(env.clock) <= env.clock <= old(env.clock) + attempts
      ensures env.clock > old(env.clock) ==>
                env.now >= old(env.now) + Pauses(env.clock - old(env.clock) - 1, delay)
      ensures forall k :: old(env.clock) <= k < env.clock - 1 ==> CountAt(k).Err?
      ensures match observation
              case Known(n) => env.clock > old(env.clock) && CountAt(env.clock - 1) == Ok(n)
              case Unknown => env.clock == old(env.clock) + attempts
                              && (attempts > 0 ==> CountAt(env.clock - 1).Err?)
    {
      var attempt := 1;
      observation := Unknown;
      SpentInAll();
      while attempt <= attempts
        invariant 1 <= attempt <= attempts + 1 && env.clock == old(env.clock) + attempt - 1
        invariant env.log == old(env.log)
        invariant old(env.now) <= env.now <= old(env.now) + SpentBefore(attempt)
        invariant env.now >= old(env.now) + PausesBefore(attempt)
        invariant forall k :: old(env.clock) <= k < env.clock ==> CountAt(k).Err?
      {
        AttemptFits(attempt);
        var count := Attempt(attempt);
        if count.Ok? {
          observation := Known(count.value);
          env.Log(Asked(observation));
          return;
        }
        attempt := attempt + 1;
      }
      env.Log(Asked(observation));
    }

    /** Time that may have passed when an attempt begins, pauses included. */
    function SpentBefore(attempt: nat): real
      requires attempt > 0
    {
      if attempt == 1 then 0.0
      else LongestRequest(attempt - 1, timeout, delay) + if attempt <= attempts then delay else 0.0
    }

    /** The pauses that have passed when an attempt begins. */
    function PausesBefore(attempt: nat): real
      requires attempt > 0
    {
      if attempt == 1 then 0.0 else Pauses(if attempt <= attempts then attempt - 1 else attempt - 2, delay)
    }

    lemma AttemptFits(attempt: nat)
      requires Valid() && 0 < attempt <= attempts
      ensures SpentBefore(attempt) + timeout <= Longest()
      ensures SpentBefore(attempt + 1) == SpentBefore(attempt) + timeout + if attempt < attempts then delay else 0.0
      ensures PausesBefore(attempt + 1) == PausesBefore(attempt) + if attempt < attempts then delay else 0.0
      ensures PausesBefore(attempt) == Pauses(attempt - 1, delay)
    {
      LongestRequestIsMonotone(attempt, attempts, timeout, delay);
      assert Pauses(0, delay) == 0.0 && Pauses(attempt, delay) == Pauses(attempt - 1, delay) + delay;
      assert (attempt + 1) - 1 == attempt && (attempt + 1) - 2 == attempt - 1;
    }

    lemma SpentInAll()
      ensures SpentBefore(attempts + 1) == Longest()
    {
    }

    /** One request, and the pause after a failure that leaves another attempt. */
    method Attempt(attempt: nat) returns (count: Result<nat>)
      requires Valid()
      modifies env`clock, env`now
      ensures count == CountAt(old(env.clock)) && env.clock == old(env.clock) + 1
      ensures env.now >= old(env.now) + if count.Err? && attempt < attempts then delay else 0.0
      ensures old(env.now) <= env.now
                <= old(env.now) + timeout + if count.Err? && attempt < attempts then delay else 0.0
    {
      var a := env.Ask(timeout);
      count := match a.text case Ok(text) => parse(text) case Err => Err;
      if count.Err? && attempt < attempts {
        env.Sleep(delay);
      }
    }

    /** RconAdmin.save: confirmed by the first recognized response, or not at all. */
    method Save() returns (confirmed: bool)
      requires Valid()
      modifies env
      ensures env.log == old(env.log) + [SaveRequested(confirmed)]
      ensures old(env.now) <= env.now
      ensures old(env.clock) <= env.clock <= old(env.clock) + attempts
      ensures env.clock > old(env.clock) ==>
                env.now >= old(env.now) + Pauses(env.clock - old(env.clock) - 1, delay)
      ensures forall k :: old(env.clock) <= k < env.clock - 1 ==> !SaveAt(k)
      ensures if confirmed then env.clock > old(env.clock) && SaveAt(env.clock - 1)
              else env.clock == old(env.clock) + attempts && (attempts > 0 ==> !SaveAt(env.clock - 1))
    {
      var attempt := 1;
      confirmed := false;
      while attempt <= attempts
        invariant 1 <= attempt <= attempts + 1 && env.clock == old(env.clock) + attempt - 1
        invariant env.log == old(env.log) && old(env.now) <= env.now
        invariant env.now >= old(env.now) + PausesBefore(attempt)
        invariant forall k :: old(env.clock) <= k < env.clock ==> !SaveAt(k)
      {
        AttemptFits(attempt);
        var a := env.Ask(timeout);
        if a.text.Ok? && ConfirmsSave(a.text.value) {
          confirmed := true;
          env.Log(SaveRequested(true));
          return;
        }
        if attempt < attempts {
          env.Sleep(delay);
        }
        attempt := attempt + 1;
      }
      env.Log(SaveRequested(false));
    }
  }
}
