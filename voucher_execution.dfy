/** What the Vouchers and Delegate-call Vouchers panels share: loading one voucher with its
    proof and whether it was executed ("Get Proof"), executing it through the application
    contract, and the button that offers the execution. */
module VoucherExecution {
  import opened Wrappers
  import opened Graphql
  import opened Chain

  /** The fields of a fetched voucher that loading and executing use. */
  datatype Held = Held(index: int, payload: string, proof: Option<Proof>)

  /** What `executeOutput` needs: a proof whose sibling hashes are there and not empty. */
  predicate HasProof(proof: Option<Proof>) {
    proof.Some? && proof.value.siblings.Some? && |proof.value.siblings.value| > 0
  }

  /** The function of the application contract that executes an output. */
  const ExecuteFn: string := "executeOutput"

  /** The function of the application contract that tells whether an output was executed. */
  const ExecutedFn: string := "wasOutputExecuted"

  /** One press of "Execute voucher": the message it leaves, the requests it makes, and
      whether it marks the voucher executed. `ready` is a chain and an application being
      selected. */
  datatype Outcome = Outcome(message: Option<string>, requests: seq<Request>, marksExecuted: bool)

  function ExecuteOutcome(ready: bool, payload: string, proof: Option<Proof>, env: Env): Outcome {
    if payload == "" then Outcome(Some("no voucher"), [], false)
    else if !HasProof(proof) then Outcome(Some("no proof"), [], false)
    else if !ready || !CanSign(env) then Outcome(None, [], false)
    else
      var (requests, failure) := Transact(ExecuteFn, env);
      match failure
      case None => Outcome(Some("Voucher executed!"), requests, true)
      case Some(f) => Outcome(ShortMessage(f), requests, false)
  }

  /** Nothing is sent for a voucher without payload or without sibling hashes; each case has
      its own message. */
  lemma ExecuteNeedsProof(ready: bool, payload: string, proof: Option<Proof>, env: Env)
    ensures var o := ExecuteOutcome(ready, payload, proof, env);
            (o.requests != [] <==> payload != "" && HasProof(proof) && ready && CanSign(env))
            && (payload == "" ==> o.message == Some("no voucher"))
            && (payload != "" && !HasProof(proof) ==> o.message == Some("no proof"))
  {
  }

  /** A voucher is marked executed exactly when its simulation, its transaction and the
      receipt all came back, and then the message says so. */
  lemma ExecutedMeansConfirmed(ready: bool, payload: string, proof: Option<Proof>, env: Env)
    ensures var o := ExecuteOutcome(ready, payload, proof, env);
            (o.marksExecuted <==> o.requests == [Simulate(ExecuteFn), Write(ExecuteFn), WaitForReceipt(ExecuteFn)]
                                  && forall i :: 0 <= i < 3 ==> env.reply(o.requests[i]).Answer?)
            && (o.marksExecuted ==> o.message == Some("Voucher executed!"))
  {
  }

  /** A transaction that fails leaves the voucher as it was and shows the short message of the
      request that threw (nothing, when the throw is not a library error). */
  lemma FailureShowsShortMessage(ready: bool, payload: string, proof: Option<Proof>, env: Env)
    ensures var o := ExecuteOutcome(ready, payload, proof, env);
            o.requests != [] && !o.marksExecuted ==>
              env.reply(o.requests[|o.requests| - 1]).Threw?
              && o.message == ShortMessage(env.reply(o.requests[|o.requests| - 1]).failure)
  {
  }

  /** What one press of "Get Proof" does: nothing (no URL, or the read threw), or the fetched
      voucher, if any, becomes the one shown, with what the chain said of its execution. */
  datatype Loaded = Unchanged(requests: seq<Request>) | Selected(executed: Option<bool>, requests: seq<Request>)

  function Load(hasUrl: bool, ready: bool, found: Option<Held>, env: Env): Loaded {
    if !hasUrl then Unchanged([])
    else if !ready || found.None? || !env.hasClient then Selected(None, [])
    else match env.reply(Read(ExecutedFn))
      case Answer(b) => Selected(Some(b), [Read(ExecutedFn)])
      case Threw(_) => Unchanged([Read(ExecutedFn)])
  }

  /** The voucher shown says it was executed, or not, exactly as the chain answered when asked;
      when the chain was not asked it says nothing. */
  lemma LoadMeaning(hasUrl: bool, ready: bool, found: Option<Held>, env: Env, b: bool)
    ensures Load(hasUrl, ready, found, env) == Selected(Some(b), [Read(ExecutedFn)])
        <==> hasUrl && ready && found.Some? && env.hasClient && env.reply(Read(ExecutedFn)) == Answer(b)
    ensures Load(hasUrl, ready, found, env).requests == [] ==> Load(hasUrl, ready, found, env).Selected? ==> Load(hasUrl, ready, found, env).executed.None?
  {
  }

  /** The button of the voucher shown: whether it is disabled, and its caption. */
  function ExecuteButton(proof: Option<Proof>, executed: Option<bool>): (bool, string) {
    var done := executed == Some(true);
    (proof.None? || done, if proof.Some? then (if done then "Voucher executed" else "Execute voucher") else "No proof yet")
  }

  /** The button is enabled exactly when it offers the execution, and a voucher known to be
      executed never offers it. */
  lemma ButtonMeaning(proof: Option<Proof>, executed: Option<bool>)
    ensures !ExecuteButton(proof, executed).0 <==> ExecuteButton(proof, executed).1 == "Execute voucher"
    ensures executed == Some(true) ==> ExecuteButton(proof, executed).0
  {
  }

  /** The button tests only that a proof is there, so it is enabled for a proof without
      sibling hashes, and pressing it then says "no proof". */
  lemma EnabledWithoutSiblings(index: int, payload: string, ready: bool, env: Env)
    requires payload != ""
    ensures var proof := Some(Proof(index, Some([])));
            !ExecuteButton(proof, None).0
            && ExecuteOutcome(ready, payload, proof, env) == Outcome(Some("no proof"), [], false)
  {
  }

  /** The voucher shown (`ExtendedVoucher`): the fetched record, and what is known of its
      execution, which an execution updates in place. */
  class ExtendedVoucher {
    const held: Held
    var executed: Option<bool>

    constructor(held: Held, executed: Option<bool>)
      ensures this.held == held && this.executed == executed
    {
      this.held := held;
      this.executed := executed;
    }
  }

  /** The state of the upper table of either panel: the voucher shown and its message. */
  class ExecutionPanel {
    const hasUrl: bool
    const ready: bool
    var selected: Option<ExtendedVoucher>
    var message: Option<string>

    constructor(hasUrl: bool, ready: bool)
      ensures this.hasUrl == hasUrl && this.ready == ready && selected.None? && message.None?
    {
      this.hasUrl := hasUrl;
      this.ready := ready;
      selected := None;
      message := None;
    }

    /** `loadVoucher`, given what the single-voucher query found. */
    method LoadVoucher(found: Option<Held>, env: Env) returns (requests: seq<Request>)
      modifies this
      ensures var l := Load(hasUrl, ready, found, env);
              requests == l.requests
              && (l.Unchanged? ==> selected == old(selected) && message == old(message))
              && (l.Selected? ==> message.None? && (selected.Some? <==> found.Some?)
                                  && (selected.Some? ==> fresh(selected.value)
                                                         && selected.value.held == found.value
                                                         && selected.value.executed == l.executed))
    {
      requests := [];
      if !hasUrl {
        return;
      }
      var executed: Option<bool> := None;
      if ready && found.Some? && env.hasClient {
        requests := [Read(ExecutedFn)];
        match env.reply(Read(ExecutedFn))
        case Threw(_) =>
          return;
        case Answer(b) =>
          executed := Some(b);
      }
      message := None;
      if found.Some? {
        var v := new ExtendedVoucher(found.value, executed);
        selected := Some(v);
      } else {
        selected := None;
      }
    }

    /** `executeVoucher` on the voucher shown. */
    method ExecuteVoucher(env: Env) returns (requests: seq<Request>)
      requires selected.Some?
      modifies this, selected.value
      ensures selected == old(selected)
      ensures var o := ExecuteOutcome(ready, selected.value.held.payload, selected.value.held.proof, env);
              message == o.message && requests == o.requests
              && selected.value.executed == (if o.marksExecuted then Some(true) else old(selected.value.executed))
    {
      var v := selected.value;
      requests := [];
      if v.held.payload == "" {
        message := Some("no voucher");
        return;
      }
      if !HasProof(v.held.proof) {
        message := Some("no proof");
        return;
      }
      message := None;
      if !ready || !env.hasClient || !env.hasWallet || !env.hasAccount {
        return;
      }
      requests := [Simulate(ExecuteFn)];
      if env.reply(Simulate(ExecuteFn)).Threw? {
        message := ShortMessage(env.reply(Simulate(ExecuteFn)).failure);
        return;
      }
      requests := requests + [Write(ExecuteFn)];
      if env.reply(Write(ExecuteFn)).Threw? {
        message := ShortMessage(env.reply(Write(ExecuteFn)).failure);
        return;
      }
      requests := requests + [WaitForReceipt(ExecuteFn)];
      if env.reply(WaitForReceipt(ExecuteFn)).Threw? {
        message := ShortMessage(env.reply(WaitForReceipt(ExecuteFn)).failure);
        return;
      }
      message := Some("Voucher executed!");
      v.executed := Some(true);
    }
  }
}
