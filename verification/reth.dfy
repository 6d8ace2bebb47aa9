/** The sequential path of the block builder (src/reth.rs): the block
    environment of the next block, built from the parent header and the
    consensus layer's payload attributes, and the best-effort loop that runs
    each transaction against a cache database, skipping failures and
    committing after every success. */
module Reth {
  import opened Primitives
  import opened BlockEnvs
  import opened TxEnvs
  import opened Transactions
  import opened States
  import Pbb

  /** The excess blob gas of the next block: the parent's signal when it
      gives one; otherwise zero exactly when the next block's rule set is
      Cancun (the first block of the blob fork), and absent for every other
      rule set, later ones included. */
  function NextExcessBlobGas(formulas: FeeFormulas, parent: Header, specId: SpecId): (r: Option<U64>)
    ensures formulas.nextBlockExcessBlobGas(parent).Some? ==> r == formulas.nextBlockExcessBlobGas(parent)
    ensures formulas.nextBlockExcessBlobGas(parent).None? && specId == Cancun ==> r == Some(0)
    ensures formulas.nextBlockExcessBlobGas(parent).None? && specId != Cancun ==> r == None
  {
    match formulas.nextBlockExcessBlobGas(parent)
    case Some(excess) => Some(excess)
    case None => if specId == Cancun then Some(0) else None
  }

  /** The block environment of the block after `parent`. */
  function NextBlockEnv(chain: ChainSpec, formulas: FeeFormulas, parent: Header, attributes: PayloadAttributes): (r: BlockEnv)
    ensures r.number == parent.number + 1
    ensures r.gasLimit == parent.gasLimit
    ensures r.timestamp == attributes.timestamp
    ensures r.coinbase == attributes.suggestedFeeRecipient
    ensures r.prevrandao == Some(attributes.prevRandao)
    ensures r.difficulty == 0
    ensures
      var params := chain.baseFeeParamsAt(attributes.timestamp);
      var baseFee := formulas.nextBlockBaseFee(parent, params);
      r.basefee == if baseFee.Some? then baseFee.value else 0
    ensures
      var excess := NextExcessBlobGas(formulas, parent, chain.specAtTimestamp(attributes.timestamp));
      && (r.blobExcessGasAndPrice.Some? <==> excess.Some?)
      && (r.blobExcessGasAndPrice.Some? ==>
            r.blobExcessGasAndPrice.value.excessBlobGas == excess.value
            && BlobPairPriced(formulas, r.blobExcessGasAndPrice.value))
  {
    var specId := chain.specAtTimestamp(attributes.timestamp);
    var baseFee := formulas.nextBlockBaseFee(parent, chain.baseFeeParamsAt(attributes.timestamp));
    var blobExcessGasAndPrice := PairFor(formulas, NextExcessBlobGas(formulas, parent, specId));
    BlockEnv(
      parent.number + 1,
      attributes.timestamp,
      attributes.suggestedFeeRecipient,
      parent.gasLimit,
      match baseFee case Some(b) => b case None => 0,
      0,
      Some(attributes.prevRandao),
      blobExcessGasAndPrice)
  }

  /** At the first Cancun block, when the parent predates blobs and gives no
      signal, the next block carries a blob pair whose excess blob gas is zero. */
  lemma CancunTransitionStartsAtZero(chain: ChainSpec, formulas: FeeFormulas, parent: Header, attributes: PayloadAttributes)
    requires chain.specAtTimestamp(attributes.timestamp) == Cancun
    requires formulas.nextBlockExcessBlobGas(parent) == None
    ensures NextBlockEnv(chain, formulas, parent, attributes).blobExcessGasAndPrice
            == Some(BlobExcessGasAndPrice(0, formulas.blobGasPrice(0)))
  {
  }

  /** The next block's environment sits one block above the replay
      environment of its parent, with the parent's gas limit. */
  lemma NextBlockFollowsReplay(chain: ChainSpec, formulas: FeeFormulas, parent: Header, attributes: PayloadAttributes)
    ensures NextBlockEnv(chain, formulas, parent, attributes).number
            == Pbb.ReplayBlockEnv(chain, formulas, parent).number + 1
    ensures NextBlockEnv(chain, formulas, parent, attributes).gasLimit
            == Pbb.ReplayBlockEnv(chain, formulas, parent).gasLimit
  {
  }

  /** The full environment of one transaction execution. */
  datatype Env = Env(chainId: U64, specId: SpecId, block: BlockEnv, tx: TxEnv)

  /** The environments of a batch: one per transaction, in input order, all
      sharing the chain id, the rule set and the block environment. */
  function EnvsFor(chainId: U64, specId: SpecId, block: BlockEnv, txEnvOf: TransactionSigned -> TxEnv,
                   txs: seq<TransactionSigned>): (r: seq<Env>)
    ensures |r| == |txs|
    ensures forall i | 0 <= i < |txs| ::
      r[i].chainId == chainId && r[i].specId == specId && r[i].block == block && r[i].tx == txEnvOf(txs[i])
  {
    seq(|txs|, i requires 0 <= i < |txs| => Env(chainId, specId, block, txEnvOf(txs[i])))
  }

  type Outcome = Result<ResultAndState, EvmError>

  /** The results collected so far and the state the next transaction sees. */
  datatype Replayed = Replayed(results: seq<ExecutionResult>, db: DbState)

  /** One iteration: a failure is skipped; a success is committed and its
      result appended. */
  function Step(acc: Replayed, outcome: Outcome): (r: Replayed)
    ensures outcome.Err? ==> r == acc
    ensures outcome.Ok? ==>
      && r.results == acc.results + [outcome.value.result]
      && r.db == ApplyChanges(acc.db, outcome.value.state)
    ensures |acc.results| <= |r.results| <= |acc.results| + 1
    ensures r.results[..|acc.results|] == acc.results
    ensures acc.db.Keys <= r.db.Keys
  {
    match outcome
    case Err(_) => acc
    case Ok(rs) => Replayed(acc.results + [rs.result], ApplyChanges(acc.db, rs.state))
  }

  /** The sequential execution of `envs` from state `db0`. */
  function Replay(transact: (DbState, Env) -> Outcome, db0: DbState, envs: seq<Env>): (r: Replayed)
    ensures |r.results| <= |envs|
    ensures db0.Keys <= r.db.Keys
  {
    if envs == [] then Replayed([], db0)
    else
      var prior := Replay(transact, db0, envs[..|envs| - 1]);
      Step(prior, transact(prior.db, envs[|envs| - 1]))
  }

  /** What each transaction of the batch returned when it was executed. */
  function Outcomes(transact: (DbState, Env) -> Outcome, db0: DbState, envs: seq<Env>): (os: seq<Outcome>)
    ensures |os| == |envs|
  {
    if envs == [] then []
    else
      var init := envs[..|envs| - 1];
      Outcomes(transact, db0, init) + [transact(Replay(transact, db0, init).db, envs[|envs| - 1])]
  }

  /** The results of the successful outcomes, in order. */
  function Successes(os: seq<Outcome>): seq<ExecutionResult>
  {
    if os == [] then []
    else
      var last := os[|os| - 1];
      Successes(os[..|os| - 1]) + if last.Ok? then [last.value.result] else []
  }

  /** The state after committing the changes of the successful outcomes, in order. */
  function CommitAll(db0: DbState, os: seq<Outcome>): DbState
  {
    if os == [] then db0
    else
      var last := os[|os| - 1];
      var prior := CommitAll(db0, os[..|os| - 1]);
      if last.Ok? then ApplyChanges(prior, last.value.state) else prior
  }

  /** The loop's results are exactly the results of the transactions that
      succeeded, in input order, and its final state is the start state with
      exactly their changes committed in order. */
  lemma {:induction false} ReplayKeepsSuccessesInOrder(transact: (DbState, Env) -> Outcome, db0: DbState, envs: seq<Env>)
    ensures Replay(transact, db0, envs).results == Successes(Outcomes(transact, db0, envs))
    ensures Replay(transact, db0, envs).db == CommitAll(db0, Outcomes(transact, db0, envs))
  {
    if envs != [] {
      var init := envs[..|envs| - 1];
      ReplayKeepsSuccessesInOrder(transact, db0, init);
      var os := Outcomes(transact, db0, envs);
      assert os[..|os| - 1] == Outcomes(transact, db0, init);
    }
  }

  lemma {:induction false} OutcomesPrefix(transact: (DbState, Env) -> Outcome, db0: DbState, envs: seq<Env>, i: nat)
    requires i <= |envs|
    ensures Outcomes(transact, db0, envs)[..i] == Outcomes(transact, db0, envs[..i])
    decreases |envs|
  {
    if i < |envs| {
      var init := envs[..|envs| - 1];
      OutcomesPrefix(transact, db0, init, i);
      assert init[..i] == envs[..i];
      assert Outcomes(transact, db0, envs)[..i] == Outcomes(transact, db0, init)[..i];
    } else {
      assert envs[..i] == envs;
    }
  }

  /** Transaction i is executed against the start state with the changes of
      every earlier successful transaction committed: later transactions see
      earlier commits. */
  lemma OutcomeSeesEarlierCommits(transact: (DbState, Env) -> Outcome, db0: DbState, envs: seq<Env>, i: nat)
    requires i < |envs|
    ensures Outcomes(transact, db0, envs)[i]
            == transact(CommitAll(db0, Outcomes(transact, db0, envs)[..i]), envs[i])
  {
    var os := Outcomes(transact, db0, envs);
    OutcomesPrefix(transact, db0, envs, i + 1);
    OutcomesPrefix(transact, db0, envs, i);
    ReplayKeepsSuccessesInOrder(transact, db0, envs[..i]);
    assert envs[..i + 1][..i] == envs[..i];
    assert os[i] == os[..i + 1][i];
  }

  /** A transaction whose execution fails contributes no result and commits
      nothing. */
  lemma FailureIsSkipped(transact: (DbState, Env) -> Outcome, db0: DbState, envs: seq<Env>, i: nat)
    requires i < |envs|
    requires Outcomes(transact, db0, envs)[i].Err?
    ensures Replay(transact, db0, envs[..i + 1]) == Replay(transact, db0, envs[..i])
  {
    OutcomesPrefix(transact, db0, envs, i + 1);
    assert envs[..i + 1][..i] == envs[..i];
    assert Outcomes(transact, db0, envs)[i] == Outcomes(transact, db0, envs)[..i + 1][i];
  }

  /** A transaction that succeeds appends exactly its result and commits
      exactly its changes. */
  lemma SuccessIsCommitted(transact: (DbState, Env) -> Outcome, db0: DbState, envs: seq<Env>, i: nat)
    requires i < |envs|
    requires Outcomes(transact, db0, envs)[i].Ok?
    ensures
      var before := Replay(transact, db0, envs[..i]);
      var rs := Outcomes(transact, db0, envs)[i].value;
      Replay(transact, db0, envs[..i + 1]) == Replayed(before.results + [rs.result], ApplyChanges(before.db, rs.state))
  {
    OutcomesPrefix(transact, db0, envs, i + 1);
    assert envs[..i + 1][..i] == envs[..i];
    assert Outcomes(transact, db0, envs)[i] == Outcomes(transact, db0, envs)[..i + 1][i];
  }

  /** There is one result per successful transaction: never more results than
      transactions, and as many exactly when none failed. */
  lemma {:induction false} SuccessesCount(os: seq<Outcome>)
    ensures |Successes(os)| <= |os|
    ensures |Successes(os)| == |os| <==> forall i | 0 <= i < |os| :: os[i].Ok?
    ensures |Successes(os)| == |set i | 0 <= i < |os| && os[i].Ok?|
  {
    SuccessesMatchOkOutcomes(os);
    if os != [] {
      var init := os[..|os| - 1];
      SuccessesCount(init);
      if forall i | 0 <= i < |os| :: os[i].Ok? {
        assert forall i | 0 <= i < |init| :: init[i].Ok? by {
          forall i | 0 <= i < |init| ensures init[i].Ok? {
            assert init[i] == os[i];
          }
        }
      }
    }
  }

  /** One result per successful outcome: the results are counted by the
      positions whose execution succeeded. */
  lemma {:induction false} SuccessesMatchOkOutcomes(os: seq<Outcome>)
    ensures |Successes(os)| == |set i | 0 <= i < |os| && os[i].Ok?|
  {
    if os != [] {
      var init := os[..|os| - 1];
      SuccessesMatchOkOutcomes(init);
      var okInit := set i | 0 <= i < |init| && init[i].Ok?;
      var last := if os[|os| - 1].Ok? then {|os| - 1} else {};
      assert (set i | 0 <= i < |os| && os[i].Ok?) == okInit + last;
      assert okInit !! last;
    }
  }

  /** Filtering successes distributes over concatenation, so the order of
      results follows the order of transactions. */
  lemma {:induction false} SuccessesAppend(a: seq<Outcome>, b: seq<Outcome>)
    ensures Successes(a + b) == Successes(a) + Successes(b)
  {
    if b == [] {
      assert a + b == a;
    } else {
      var init := b[..|b| - 1];
      SuccessesAppend(a, init);
      assert (a + b)[..|a + b| - 1] == a + init;
      assert (a + b)[|a + b| - 1] == b[|b| - 1];
    }
  }

  /** The cache database the loop executes against: the state the EVM
      observes, with every committed change applied. */
  class CacheDb {
    var accounts: DbState

    constructor (snapshot: DbState)
      ensures accounts == snapshot
    {
      accounts := snapshot;
    }

    method Commit(changes: map<Address, DbAccount>)
      modifies this
      ensures accounts == ApplyChanges(old(accounts), changes)
    {
      accounts := ApplyChanges(accounts, changes);
    }
  }

  /** `execute_reth` from the point where the payload attributes, the parent
      header and the state are at hand: derive the rule set and the block
      environment once, then run every transaction in order with them. */
  method ExecuteReth(
    db: CacheDb,
    transact: (DbState, Env) -> Outcome,
    txEnvOf: TransactionSigned -> TxEnv,
    chain: ChainSpec,
    formulas: FeeFormulas,
    parent: Header,
    attributes: PayloadAttributes,
    txs: seq<TransactionSigned>) returns (executionResult: seq<ExecutionResult>)
    modifies db
    ensures
      var envs := EnvsFor(chain.chainId, chain.specAtTimestamp(attributes.timestamp),
                          NextBlockEnv(chain, formulas, parent, attributes), txEnvOf, txs);
      && executionResult == Replay(transact, old(db.accounts), envs).results
      && db.accounts == Replay(transact, old(db.accounts), envs).db
    ensures |executionResult| <= |txs|
  {
    var specId := chain.specAtTimestamp(attributes.timestamp);
    var blockEnv := NextBlockEnv(chain, formulas, parent, attributes);
    ghost var envs := EnvsFor(chain.chainId, specId, blockEnv, txEnvOf, txs);
    ghost var db0 := db.accounts;

    executionResult := [];
    for i := 0 to |txs|
      invariant Replay(transact, db0, envs[..i]) == Replayed(executionResult, db.accounts)
    {
      var env := Env(chain.chainId, specId, blockEnv, txEnvOf(txs[i]));
      assert envs[..i + 1][..i] == envs[..i] && env == envs[i];
      var outcome := transact(db.accounts, env);
      if outcome.Err? {
        continue;
      }
      db.Commit(outcome.value.state);
      executionResult := executionResult + [outcome.value.result];
    }
    assert envs[..|txs|] == envs;
    ReplayKeepsSuccessesInOrder(transact, db0, envs);
    SuccessesCount(Outcomes(transact, db0, envs));
  }
}
