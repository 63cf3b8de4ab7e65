/** NetworkManager.executeRequest: the transport is called up to `retries + 1` times,
    with exponential backoff between attempts; an AbortError or an error whose message
    contains "HTTP 4" ends the loop at once. Each transport call is one element of a
    given sequence of outcomes, and the waits are returned instead of slept. */
module Retry {
  import opened Wrappers
  import opened Text
  import opened Decimal
  import opened Json

  /** What one transport call ends with. */
  datatype Outcome =
    | Success(data: Json)        // response.ok and response.json() resolved
    | HttpStatus(status: int)    // !response.ok
    | Abort                      // the controller's signal fired (timeout or caller)
    | Thrown(message: string)    // any other error (network failure, unreadable body)

  /** The message of the error a failed call throws. */
  function ErrorMessage(url: string, o: Outcome): string
  {
    match o
    case HttpStatus(s) => "HTTP " + IntToString(s) + " for " + url
    case Thrown(m) => m
    case _ => ""
  }

  /** A failure the loop rethrows without another attempt. */
  predicate Terminal(url: string, o: Outcome)
  {
    o.Abort? || Contains(ErrorMessage(url, o), "HTTP 4")
  }

  function Pow2(k: nat): (r: nat)
    ensures r >= 1
  {
    if k == 0 then 1 else 2 * Pow2(k - 1)
  }

  /** How a run of the loop ends: the value or the error, the waits between attempts,
      and the number of transport calls made. */
  datatype Run = Run(result: Result<Json, Outcome>, delays: seq<int>, calls: nat)

  /** The loop from attempt number `attempt` (0-based) on: the reference definition. */
  function Attempts(url: string, maxAttempts: nat, retryDelay: int, outcomes: seq<Outcome>,
                    attempt: nat): (r: Run)
    requires attempt < maxAttempts <= |outcomes|
    ensures attempt < r.calls <= maxAttempts
    ensures |r.delays| == r.calls - attempt - 1
    ensures forall k :: 0 <= k < |r.delays| ==> r.delays[k] == retryDelay * Pow2(attempt + k)
    ensures forall j :: attempt <= j < r.calls - 1 ==>
              !outcomes[j].Success? && !Terminal(url, outcomes[j])
    ensures var last := outcomes[r.calls - 1];
            r.result == if last.Success? then Ok(last.data) else Err(last)
    ensures r.calls < maxAttempts ==> outcomes[r.calls - 1].Success? || Terminal(url, outcomes[r.calls - 1])
    decreases maxAttempts - attempt
  {
    var o := outcomes[attempt];
    if o.Success? then Run(Ok(o.data), [], attempt + 1)
    else if Terminal(url, o) then Run(Err(o), [], attempt + 1)
    else if attempt + 1 < maxAttempts then
      var rest := Attempts(url, maxAttempts, retryDelay, outcomes, attempt + 1);
      Run(rest.result, [retryDelay * Pow2(attempt)] + rest.delays, rest.calls)
    else Run(Err(o), [], attempt + 1)
  }

  /** One retriable failure with attempts left: a wait, then the rest of the run. */
  lemma AttemptsStep(url: string, maxAttempts: nat, retryDelay: int, outcomes: seq<Outcome>,
                     attempt: nat)
    requires attempt + 1 < maxAttempts <= |outcomes|
    requires !outcomes[attempt].Success? && !Terminal(url, outcomes[attempt])
    ensures var rest := Attempts(url, maxAttempts, retryDelay, outcomes, attempt + 1);
            Attempts(url, maxAttempts, retryDelay, outcomes, attempt)
            == Run(rest.result, [retryDelay * Pow2(attempt)] + rest.delays, rest.calls)
  {
  }

  /** executeRequest(url, options, controller, retries, retryDelay). */
  method ExecuteRequest(url: string, retries: nat, retryDelay: int, outcomes: seq<Outcome>)
    returns (result: Result<Json, Outcome>, delays: seq<int>, calls: nat)
    requires |outcomes| > retries
    ensures Run(result, delays, calls) == Attempts(url, retries + 1, retryDelay, outcomes, 0)
  {
    var attempt: nat := 0;
    var maxAttempts := retries + 1;
    ghost var whole := Attempts(url, maxAttempts, retryDelay, outcomes, 0);
    delays := [];
    while attempt < maxAttempts
      invariant attempt < maxAttempts
      invariant var rest := Attempts(url, maxAttempts, retryDelay, outcomes, attempt);
                whole == Run(rest.result, delays + rest.delays, rest.calls)
      decreases maxAttempts - attempt
    {
      ghost var rest := Attempts(url, maxAttempts, retryDelay, outcomes, attempt);
      var o := outcomes[attempt];
      if o.Success? {
        assert rest == Run(Ok(o.data), [], attempt + 1);
        assert delays + [] == delays;
        return Ok(o.data), delays, attempt + 1;
      }
      attempt := attempt + 1;
      if Terminal(url, o) {
        assert rest == Run(Err(o), [], attempt);
        assert delays + [] == delays;
        return Err(o), delays, attempt;
      }
      if attempt < maxAttempts {
        AttemptsStep(url, maxAttempts, retryDelay, outcomes, attempt - 1);
        ghost var next := Attempts(url, maxAttempts, retryDelay, outcomes, attempt);
        var wait := retryDelay * Pow2(attempt - 1);
        assert delays + ([wait] + next.delays) == (delays + [wait]) + next.delays;
        delays := delays + [wait];
      } else {
        assert rest == Run(Err(o), [], attempt);
        assert delays + [] == delays;
        return Err(o), delays, attempt;
      }
    }
    assert false;
  }

  /** A status from 400 to 499 puts "HTTP 4" at the head of the message. */
  lemma ClientErrorTerminal(url: string, status: int)
    requires 400 <= status <= 499
    ensures Terminal(url, HttpStatus(status))
  {
    var d := NatToString(status);
    assert d == NatToString(status / 10) + [DigitChar(status % 10)];
    assert NatToString(status / 10) == NatToString(status / 100) + [DigitChar(status / 10 % 10)];
    assert d[0] == '4';
    var m := ErrorMessage(url, HttpStatus(status));
    assert m[..6] == "HTTP 4";
    assert StartsWith(m, "HTTP 4");
  }

  /** In "HTTP <s> for " + url, with `s` of three digits not starting with '4', no
      "HTTP 4" begins inside the 13-character head: its only 'H' is the first character,
      and the digit after "HTTP " is not '4'. */
  lemma ClientMarkNotInHead(url: string, status: int, i: int)
    requires 100 <= status <= 999 && status / 100 != 4
    requires OccursAt(ErrorMessage(url, HttpStatus(status)), "HTTP 4", i)
    ensures |"HTTP " + IntToString(status) + " for "| == 13 <= i
  {
    var d := NatToString(status);
    assert d == NatToString(status / 10) + [DigitChar(status % 10)];
    assert NatToString(status / 10) == NatToString(status / 100) + [DigitChar(status / 10 % 10)];
    assert |d| == 3 && d[0] == DigitChar(status / 100) != '4';
    var head := "HTTP " + d + " for ";
    var m := head + url;
    assert m == ErrorMessage(url, HttpStatus(status));
    assert m[i] == 'H' && m[i + 5] == '4' by {
      assert m[i..i + 6] == "HTTP 4";
    }
    assert forall j :: 0 < j < |head| ==> head[j] != 'H' by {
      assert AllDigits(d);
      forall j | 0 < j < |head| ensures head[j] != 'H' {
        if 5 <= j < 8 { assert head[j] == d[j - 5]; }
      }
    }
    assert head[5] != '4';
  }

  /** For a three-digit status outside 4xx, the loop stops on it exactly when the URL
      itself contains "HTTP 4": the check reads the message, not the status. */
  lemma ServerErrorTerminalOnlyByUrl(url: string, status: int)
    requires 100 <= status <= 999 && status / 100 != 4
    ensures Terminal(url, HttpStatus(status)) <==> Contains(url, "HTTP 4")
  {
    var head := "HTTP " + IntToString(status) + " for ";
    var m := ErrorMessage(url, HttpStatus(status));
    assert m == head + url;
    if Contains(url, "HTTP 4") {
      ContainsConcatRight(head, url, "HTTP 4");
    }
    if Contains(m, "HTTP 4") {
      ContainsAt(m, "HTTP 4");
      var i :| OccursAt(m, "HTTP 4", i);
      ClientMarkNotInHead(url, status, i);
      assert OccursAt(url, "HTTP 4", i - |head|) by {
        assert url[i - |head|..i - |head| + 6] == m[i..i + 6];
      }
      ContainsAt(url, "HTTP 4");
    }
  }

  /** With retries = 3 and the default retryDelay, three retriable failures and a
      success wait 1000, 2000 and 4000 ms and return the success. */
  lemma BackoffSchedule(url: string, msg: string, data: Json)
    requires !Contains(msg, "HTTP 4")
    ensures var outcomes := [Thrown(msg), Thrown(msg), Thrown(msg), Success(data)];
            Attempts(url, 4, 1000, outcomes, 0) == Run(Ok(data), [1000, 2000, 4000], 4)
  {
    var outcomes := [Thrown(msg), Thrown(msg), Thrown(msg), Success(data)];
    assert !Terminal(url, Thrown(msg));
    assert Pow2(1) == 2 && Pow2(2) == 4;
    var r3 := Attempts(url, 4, 1000, outcomes, 3);
    assert r3 == Run(Ok(data), [], 4);
    var r2 := Attempts(url, 4, 1000, outcomes, 2);
    assert r2 == Run(Ok(data), [4000], 4);
    var r1 := Attempts(url, 4, 1000, outcomes, 1);
    assert r1 == Run(Ok(data), [2000, 4000], 4);
  }

  /** A 404 on the first call ends the run after one call and no wait, whatever the
      retry budget. */
  lemma NotFoundStopsAtOnce(url: string, retries: nat, retryDelay: int, outcomes: seq<Outcome>)
    requires |outcomes| > retries && outcomes[0] == HttpStatus(404)
    ensures Attempts(url, retries + 1, retryDelay, outcomes, 0) == Run(Err(HttpStatus(404)), [], 1)
  {
    ClientErrorTerminal(url, 404);
  }
}
