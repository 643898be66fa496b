/** The Portals panel: deposits of Ether, ERC-20, ERC-721 and ERC-1155 tokens to the
    application through the rollups portals, each a sequence of awaited viem requests, with
    an approval of the portal first when the token contract says one is needed. */
module Portals {
  import opened Wrappers
  import opened Chain
  import Input
  import Decimal

  // ---- When a deposit approves the portal first ----

  /** ERC-20: approve exactly `value` when the allowance is below it. */
  function Erc20NeedsApproval(allowance: nat, value: nat): bool {
    allowance < value
  }

  /** ERC-721: approve when the token's approved address is not the portal, compared as text. */
  function Erc721NeedsApproval(approved: string, portal: string): bool {
    approved != portal
  }

  /** ERC-1155 as written: `setApprovalForAll` is sent when `isApprovedForAll` answers true. */
  function Erc1155NeedsApprovalAsWritten(approvedForAll: bool): bool {
    approvedForAll
  }

  /** ERC-1155 as intended: `setApprovalForAll` is sent when the portal is not yet an operator. */
  function Erc1155NeedsApproval(approvedForAll: bool): bool {
    !approvedForAll
  }

  /** The two panels decide ERC-721 approvals alike. This panel's ERC-20 test, on bigints,
      is the Input panel's as intended; the Input panel as written compares decimal texts,
      and agrees with it when amount and allowance have equally many digits (and not always
      otherwise: 10 ether against an allowance of 9). As written the panels decide the
      ERC-1155 approval oppositely for every answer of `isApprovedForAll`, and the corrected
      decision is the Input panel's. */
  lemma DecisionsAgreeWithInput(allowance: nat, value: nat, approved: string, portal: string, approvedForAll: bool)
    ensures Erc20NeedsApproval(allowance, value) == Input.Erc20NeedsApproval(value, allowance)
    ensures |Decimal.Render(value)| == |Decimal.Render(allowance)| ==>
              Erc20NeedsApproval(allowance, value) == Input.Erc20NeedsApprovalAsWritten(value, allowance)
    ensures Erc20NeedsApproval(9 * Input.Ether, 10 * Input.Ether) != Input.Erc20NeedsApprovalAsWritten(10 * Input.Ether, 9 * Input.Ether)
    ensures Erc721NeedsApproval(approved, portal) == Input.Erc721NeedsApproval(approved, portal)
    ensures Erc1155NeedsApprovalAsWritten(approvedForAll) != Input.Erc1155NeedsApproval(approvedForAll)
    ensures Erc1155NeedsApproval(approvedForAll) == Input.Erc1155NeedsApproval(approvedForAll)
  {
    if |Decimal.Render(value)| == |Decimal.Render(allowance)| {
      Input.Erc20AsWrittenSameLength(value, allowance);
    }
    Input.Erc20ComparedAsText();
  }

  // ---- The requests of a deposit ----

  /** One deposit: the read of the current approval (none for Ether), whether it calls for an
      approval (from what that read returned), the approving function and the deposit. */
  datatype Deposit = Deposit(query: Option<string>, needsApproval: bool, approveFn: string, depositFn: string)

  predicate Distinct(d: Deposit) {
    d.approveFn != d.depositFn
  }

  function EtherDeposit(): Deposit {
    Deposit(None, false, "", "depositEther")
  }

  function Erc20Deposit(allowance: nat, value: nat): Deposit {
    Deposit(Some("allowance"), Erc20NeedsApproval(allowance, value), "approve", "depositERC20Tokens")
  }

  function Erc721Deposit(approved: string, portal: string): Deposit {
    Deposit(Some("getApproved"), Erc721NeedsApproval(approved, portal), "approve", "depositERC721Token")
  }

  function Erc1155SingleDepositAsWritten(approvedForAll: bool): Deposit {
    Deposit(Some("isApprovedForAll"), Erc1155NeedsApprovalAsWritten(approvedForAll), "setApprovalForAll", "depositSingleERC1155Token")
  }

  function Erc1155BatchDepositAsWritten(approvedForAll: bool): Deposit {
    Deposit(Some("isApprovedForAll"), Erc1155NeedsApprovalAsWritten(approvedForAll), "setApprovalForAll", "depositBatchERC1155Token")
  }

  function Erc1155SingleDeposit(approvedForAll: bool): Deposit {
    Deposit(Some("isApprovedForAll"), Erc1155NeedsApproval(approvedForAll), "setApprovalForAll", "depositSingleERC1155Token")
  }

  function Erc1155BatchDeposit(approvedForAll: bool): Deposit {
    Deposit(Some("isApprovedForAll"), Erc1155NeedsApproval(approvedForAll), "setApprovalForAll", "depositBatchERC1155Token")
  }

  /** The read of the current approval, if the deposit has one. */
  function Queried(d: Deposit): seq<Request> {
    if d.query.Some? then [Read(d.query.value)] else []
  }

  /** The requests of a deposit: nothing without a chain, both clients and an account; then
      the read of the current approval; when it calls for one, the approving transaction;
      then the deposit transaction. The first throw ends it, and is caught. */
  function DepositRequests(chainSet: bool, d: Deposit, env: Env): seq<Request> {
    if !chainSet || !CanSign(env) then []
    else if d.query.Some? && env.reply(Read(d.query.value)).Threw? then Queried(d)
    else if !d.needsApproval then Queried(d) + Transact(d.depositFn, env).0
    else
      var (approval, failure) := Transact(d.approveFn, env);
      if failure.Some? then Queried(d) + approval
      else Queried(d) + approval + Transact(d.depositFn, env).0
  }

  /** One transaction, as each deposit sends it: simulated, written, and its receipt awaited;
      the first throw stops it. */
  method SendTransaction(fn: string, env: Env) returns (requests: seq<Request>, failed: bool)
    ensures requests == Transact(fn, env).0 && failed == Transact(fn, env).1.Some?
  {
    requests := [Simulate(fn)];
    if env.reply(Simulate(fn)).Threw? {
      return requests, true;
    }
    requests := requests + [Write(fn)];
    if env.reply(Write(fn)).Threw? {
      return requests, true;
    }
    requests := requests + [WaitForReceipt(fn)];
    failed := env.reply(WaitForReceipt(fn)).Threw?;
  }

  /** A deposit, one awaited request after another. */
  method SendDeposit(chainSet: bool, d: Deposit, env: Env) returns (requests: seq<Request>)
    ensures requests == DepositRequests(chainSet, d, env)
  {
    requests := [];
    if !chainSet || !env.hasClient || !env.hasWallet || !env.hasAccount {
      return;
    }
    if d.query.Some? {
      requests := [Read(d.query.value)];
      if env.reply(Read(d.query.value)).Threw? {
        return;
      }
    }
    if d.needsApproval {
      var approval, failed := SendTransaction(d.approveFn, env);
      requests := requests + approval;
      if failed {
        return;
      }
    }
    var deposit, _ := SendTransaction(d.depositFn, env);
    requests := requests + deposit;
  }

  /** Nothing is requested without a chain, both clients and an account. Otherwise the
      portal is approved exactly when the read answered and called for it, and the deposit
      is written exactly when, besides, any approval was simulated, written and confirmed
      and the deposit's simulation answered; an approval then comes whole before it. */
  lemma DepositMeaning(chainSet: bool, d: Deposit, env: Env)
    requires Distinct(d)
    ensures var t := DepositRequests(chainSet, d, env);
            var queryAnswered := d.query.None? || env.reply(Read(d.query.value)).Answer?;
            var approval := [Simulate(d.approveFn), Write(d.approveFn), WaitForReceipt(d.approveFn)];
            (t == [] <==> !chainSet || !CanSign(env))
            && (Simulate(d.approveFn) in t <==> chainSet && CanSign(env) && queryAnswered && d.needsApproval)
            && (Write(d.depositFn) in t <==>
                  chainSet && CanSign(env) && queryAnswered
                  && (d.needsApproval ==> forall i :: 0 <= i < 3 ==> env.reply(approval[i]).Answer?)
                  && env.reply(Simulate(d.depositFn)).Answer?)
            && (Write(d.depositFn) in t && d.needsApproval ==>
                  t[|Queried(d)|..|Queried(d)| + 3] == approval && t[|Queried(d)| + 3] == Simulate(d.depositFn))
  {
    var t := DepositRequests(chainSet, d, env);
    var q := Queried(d);
    var dep := Transact(d.depositFn, env).0;
    TransactSteps(d.approveFn, env);
    TransactSteps(d.depositFn, env);
    if chainSet && CanSign(env) && (d.query.None? || env.reply(Read(d.query.value)).Answer?) {
      assert Simulate(d.approveFn) !in q && Write(d.depositFn) !in q;
      assert Simulate(d.approveFn) !in dep;
      if d.needsApproval {
        var (approval, failure) := Transact(d.approveFn, env);
        assert Write(d.depositFn) !in approval;
        if failure.None? {
          assert t == q + approval + dep;
          assert t[|q|..|q| + 3] == approval;
          assert t[|q| + 3] == dep[0];
        } else {
          assert t == q + approval;
          assert t[|q|] == Simulate(d.approveFn);
        }
      } else {
        assert t == q + dep;
      }
    }
  }

  /** Every write is sent right after its own simulation answered, and every wait right
      after its own write answered. */
  lemma EachWriteSimulated(chainSet: bool, d: Deposit, env: Env)
    ensures var t := DepositRequests(chainSet, d, env);
            forall i :: 0 <= i < |t| && t[i].Write? ==>
              i > 0 && t[i - 1] == Simulate(t[i].fn) && env.reply(t[i - 1]).Answer?
    ensures var t := DepositRequests(chainSet, d, env);
            forall i :: 0 <= i < |t| && t[i].WaitForReceipt? ==>
              i > 0 && t[i - 1] == Write(t[i].fn) && env.reply(t[i - 1]).Answer?
  {
    var q := Queried(d);
    var (approval, failure) := Transact(d.approveFn, env);
    var dep := Transact(d.depositFn, env).0;
    assert Ordered(q, env);
    TransactOrdered(d.approveFn, env);
    TransactOrdered(d.depositFn, env);
    OrderedJoin(q, approval, env);
    OrderedJoin(q, dep, env);
    OrderedJoin(q + approval, dep, env);
    assert Ordered(DepositRequests(chainSet, d, env), env);
  }

  /** As written, an ERC-1155 deposit approves the portal only for an account that has
      already approved it, and goes straight to the deposit for one that has not; the
      corrected deposit does the opposite, as the Input panel does. */
  lemma Erc1155ApprovalInverted(chainSet: bool, approvedForAll: bool, env: Env)
    requires chainSet && CanSign(env) && env.reply(Read("isApprovedForAll")).Answer?
    ensures Simulate("setApprovalForAll") in DepositRequests(chainSet, Erc1155SingleDepositAsWritten(approvedForAll), env)
            <==> approvedForAll
    ensures Simulate("setApprovalForAll") in DepositRequests(chainSet, Erc1155BatchDepositAsWritten(approvedForAll), env)
            <==> approvedForAll
    ensures Simulate("setApprovalForAll") in DepositRequests(chainSet, Erc1155SingleDeposit(approvedForAll), env)
            <==> !approvedForAll
    ensures Simulate("setApprovalForAll") in DepositRequests(chainSet, Erc1155BatchDeposit(approvedForAll), env)
            <==> !approvedForAll
  {
    DepositMeaning(chainSet, Erc1155SingleDepositAsWritten(approvedForAll), env);
    DepositMeaning(chainSet, Erc1155BatchDepositAsWritten(approvedForAll), env);
    DepositMeaning(chainSet, Erc1155SingleDeposit(approvedForAll), env);
    DepositMeaning(chainSet, Erc1155BatchDeposit(approvedForAll), env);
  }

  /** An ERC-20 deposit approves the portal only when the allowance falls short of the value. */
  lemma Erc20ApprovesOnlyWhenShort(chainSet: bool, allowance: nat, value: nat, env: Env)
    ensures Simulate("approve") in DepositRequests(chainSet, Erc20Deposit(allowance, value), env) ==> allowance < value
  {
    DepositMeaning(chainSet, Erc20Deposit(allowance, value), env);
  }

  /** An ERC-721 deposit approves the portal only when the token's approved address is not
      the portal. */
  lemma Erc721ApprovesOnlyWhenNotPortal(chainSet: bool, approved: string, portal: string, env: Env)
    ensures Simulate("approve") in DepositRequests(chainSet, Erc721Deposit(approved, portal), env) ==> approved != portal
  {
    DepositMeaning(chainSet, Erc721Deposit(approved, portal), env);
  }

  /** An Ether deposit is one transaction and nothing else. */
  lemma EtherIsOneTransaction(chainSet: bool, env: Env)
    ensures chainSet && CanSign(env) ==> DepositRequests(chainSet, EtherDeposit(), env) == Transact("depositEther", env).0
    ensures !chainSet || !CanSign(env) ==> DepositRequests(chainSet, EtherDeposit(), env) == []
  {
  }
}
