/** The chain and the wallet, as the console sees them: every request it makes either
    answers or throws, and what it answers is a parameter of the model. */
module Chain {
  import opened Wrappers

  /** A thrown error: viem's `BaseError`, with its short message and the message of its
      deepest cause (`walk()`), or anything else. */
  datatype Failure = BaseError(shortMessage: string, walkMessage: string) | OtherError

  /** A request to a contract (named by the contract function it concerns, the wait for a
      receipt by the function of the transaction), or to the rollups node's JSON-RPC client. */
  datatype Request =
    | Read(fn: string)
    | Simulate(fn: string)
    | Write(fn: string)
    | WaitForReceipt(fn: string)
    | NodeValidateOutput
    | NodeExecuteOutput

  /** What a request gives back: a value (only the boolean ones matter here) or a throw. */
  datatype Reply = Answer(flag: bool) | Threw(failure: Failure)

  /** The environment of one action: whether a public client and a wallet client can be had
      for the chain, whether the wallet yields an account, and how each request is answered. */
  datatype Env = Env(hasClient: bool, hasWallet: bool, hasAccount: bool, reply: Request -> Reply)

  /** Both clients and an account: the state in which a transaction can be sent. */
  predicate CanSign(env: Env) {
    env.hasClient && env.hasWallet && env.hasAccount
  }

  /** The requests of one transaction, simulate then write then wait for the receipt,
      stopped by the first throw; the failure, if any, comes with them. */
  function Transact(fn: string, env: Env): (r: (seq<Request>, Option<Failure>))
    ensures 1 <= |r.0| <= 3 && r.0 == [Simulate(fn), Write(fn), WaitForReceipt(fn)][..|r.0|]
    ensures r.1.None? <==> |r.0| == 3 && (forall i :: 0 <= i < 3 ==> env.reply(r.0[i]).Answer?)
    ensures r.1.Some? ==> env.reply(r.0[|r.0| - 1]) == Threw(r.1.value)
    ensures forall i :: 0 <= i < |r.0| - 1 ==> env.reply(r.0[i]).Answer?
  {
    var steps := [Simulate(fn), Write(fn), WaitForReceipt(fn)];
    if env.reply(steps[0]).Threw? then (steps[..1], Some(env.reply(steps[0]).failure))
    else if env.reply(steps[1]).Threw? then (steps[..2], Some(env.reply(steps[1]).failure))
    else if env.reply(steps[2]).Threw? then (steps, Some(env.reply(steps[2]).failure))
    else (steps, None)
  }

  /** A write is sent only after its simulation answered. */
  lemma WriteAfterSimulation(fn: string, env: Env)
    ensures var calls := Transact(fn, env).0;
            Write(fn) in calls ==> calls[0] == Simulate(fn) && env.reply(calls[0]).Answer?
  {
    var calls := Transact(fn, env).0;
    if Write(fn) in calls {
      assert |calls| >= 2;
    }
  }

  /** A transaction starts with its simulation and requests nothing about other functions;
      its write is sent exactly when the simulation answered, and it succeeds exactly when
      all three steps answered. */
  lemma TransactSteps(fn: string, env: Env)
    ensures var (calls, failure) := Transact(fn, env);
            calls[0] == Simulate(fn)
            && (forall x :: x in calls ==> x == Simulate(fn) || x == Write(fn) || x == WaitForReceipt(fn))
            && (Write(fn) in calls <==> env.reply(Simulate(fn)).Answer?)
            && (failure.None? <==> env.reply(Simulate(fn)).Answer? && env.reply(Write(fn)).Answer?
                                   && env.reply(WaitForReceipt(fn)).Answer?)
            && (failure.None? ==> calls == [Simulate(fn), Write(fn), WaitForReceipt(fn)])
  {
    var calls := Transact(fn, env).0;
    if env.reply(Simulate(fn)).Threw? {
      assert calls == [Simulate(fn)];
    } else if env.reply(Write(fn)).Threw? {
      assert calls == [Simulate(fn), Write(fn)];
    } else {
      assert calls == [Simulate(fn), Write(fn), WaitForReceipt(fn)];
    }
  }

  /** Every write in `t` comes right after its own simulation, which answered, and every
      wait for a receipt right after its own write, which answered. */
  predicate Ordered(t: seq<Request>, env: Env) {
    (forall i :: 0 <= i < |t| && t[i].Write? ==>
       i > 0 && t[i - 1] == Simulate(t[i].fn) && env.reply(t[i - 1]).Answer?)
    && (forall i :: 0 <= i < |t| && t[i].WaitForReceipt? ==>
       i > 0 && t[i - 1] == Write(t[i].fn) && env.reply(t[i - 1]).Answer?)
  }

  /** A request that needs nothing sent before it. */
  predicate Opens(x: Request) {
    !x.Write? && !x.WaitForReceipt?
  }

  /** One transaction is ordered and opens with its simulation. */
  lemma TransactOrdered(fn: string, env: Env)
    ensures Ordered(Transact(fn, env).0, env) && Opens(Transact(fn, env).0[0])
  {
  }

  /** Ordered requests followed by ordered requests that open with a request needing nothing
      before it are ordered. */
  lemma OrderedJoin(a: seq<Request>, b: seq<Request>, env: Env)
    requires Ordered(a, env) && Ordered(b, env) && (b != [] ==> Opens(b[0]))
    ensures Ordered(a + b, env)
  {
    var t := a + b;
    forall i | 0 <= i < |t| && (t[i].Write? || t[i].WaitForReceipt?)
      ensures i > 0 && t[i - 1] == (if t[i].Write? then Simulate(t[i].fn) else Write(t[i].fn))
              && env.reply(t[i - 1]).Answer?
    {
      if i < |a| {
        assert t[i] == a[i] && t[i - 1] == a[i - 1];
      } else {
        assert t[i] == b[i - |a|];
        assert i - |a| > 0;
        assert t[i - 1] == b[i - |a| - 1];
      }
    }
  }

  /** The message shown for a failure: a `BaseError`'s short message, nothing otherwise. */
  function ShortMessage(f: Failure): Option<string> {
    match f
    case BaseError(s, _) => Some(s)
    case OtherError => None
  }

  /** The message shown for a failure: a `BaseError`'s deepest cause, nothing otherwise. */
  function WalkMessage(f: Failure): Option<string> {
    match f
    case BaseError(_, w) => Some(w)
    case OtherError => None
  }
}
