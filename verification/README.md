# pbb-poc block builder: a Dafny model of its execution core

pbb-poc is a proof-of-concept block builder for an Ethereum execution
client. It has two paths.

- **Sequential path** (`execute_reth`). It learns the next block's payload
  attributes from the beacon node's event feed. From the attributes and the
  latest header it derives the block environment of the next block. Then it
  runs the batch one transaction at a time against a cache database:
  - a transaction whose execution fails is skipped;
  - after each success, its state changes are committed;
  - the results of the successes are collected in input order.
- **Replay path** (`run` in `src/pbb.rs`). It derives the block environment of
  the latest block itself. It builds one transaction descriptor per signed
  transaction, converts the cached accounts into the parallel engine's shape
  and hands everything to the parallel engine in a single call, under the
  Cancun rule set.

The model covers:

- both normalisations of a signed transaction into the engine's transaction
  descriptor (`TxEnv`);
- the conversion of analysed bytecode;
- both block-environment derivations;
- the sequential execute-and-commit loop, as a method over a `CacheDb` class;
- the beacon-node client: its default endpoint, its URLs, and the subscribe
  loop that retries every five seconds.

Library collaborators are passed in as function-valued parameters: signer
recovery, the fee formulas, the chain specification's lookups, EVM
execution and the parallel engine. An `unwrap` that would abort the process
becomes an error value.

Modules:

- `Primitives`: fixed-width integer ranges, 32-byte words and addresses, and
  big-endian conversion with its round trip.
- `Transactions`: the four transaction encodings and their accessors.
- `TxEnvs`: the descriptor, its default, the access-list projection, and the
  predicates shared by both normalisations.
- `Bytecodes`: analysed bytecode and the engine's code form.
- `BlockEnvs`: headers, payload attributes, the chain and fee collaborators,
  and the block environment.
- `States`: cached accounts, execution results and committing changes.
- `Utils`: the step-by-step normalisation of `src/utils.rs`.
- `Pbb`: the replay path.
- `Reth`: the sequential path.
- `Lighthouse`: the beacon-node client.

Where the code and its description differ, the model follows the code:

- **Blob pair without a parent signal.** When the parent gives no excess blob
  gas, a blob pair with excess zero is added only when the next block's rule
  set is exactly Cancun. Later rule sets get no pair (`src/reth.rs:55`).
- **Replay rule set.** The replay path always uses Cancun, whatever the
  header's timestamp.
- **Gas price.** The two normalisations fill the gas price differently:
  - `src/utils.rs` uses the encoding's fee cap (the flat price for legacy and
    EIP-2930);
  - `src/pbb.rs` uses the effective gas price at base fee zero.

  `Utils.GetTxEnv` proves that the two descriptors agree on every other field.
- **Replay cache starts empty.** In `src/pbb.rs:93`, the replay path converts
  the accounts of a cache database created just before. Such a cache holds
  no account yet, so the engine's storage starts empty. The model takes the
  cache's contents as a parameter and describes the conversion for any
  contents.

## Model

| member | source | states |
|---|---|---|
| Utils.GetTxEnv | src/utils.rs:5-113 | Starts from the default descriptor. Fails exactly when signer recovery fails. Otherwise: caller is the recovered signer; gas limit, target, value, data, nonce and chain id come from the transaction; the gas price is the fee cap; the priority fee is present only for EIP-1559/4844; access list and blob fields are cleared for encodings without them and mirrored otherwise. For every effective-price formula, the result agrees with the replay path's descriptor except on gas price. |
| TxEnvs.ToTransactTo | src/utils.rs:15-18 | A call stays a call to the same callee, and a creation stays a creation. |
| TxEnvs.ProjectAccessList | src/utils.rs:39-52 | Same number of entries, in order, with the same addresses and the same number of keys. Each key is the number whose 32 big-endian bytes are the original key. |
| TxEnvs.ProjectKeys | src/utils.rs:46-49 | One number per storage key, in order. Writing each number back as 32 big-endian bytes gives the key. |
| Primitives.U256FromBeBytes | src/utils.rs:48 | Reading 32 bytes big-endian gives a 256-bit number whose 32-byte big-endian writing is those bytes. |
| Primitives.U256ToBeBytes | src/utils.rs:48 | The inverse direction: reading back the 32 big-endian bytes of a 256-bit number gives the number. |
| Primitives.U256FromBeBytesInjective | src/utils.rs:48 | Distinct 32-byte keys give distinct numbers. |
| Primitives.FromBeBytesToBeBytes | src/utils.rs:48 | A number below 256^len, written in len big-endian bytes and read back, is unchanged. |
| Primitives.ToBeBytesFromBeBytes | src/utils.rs:48 | Any byte string, read big-endian and written back at its own length, is unchanged. |
| Bytecodes.BytecodeToEvmCode | src/utils.rs:115-124 | For analysed legacy code, the engine code carries the same bytecode, original length and jump table. Rebuilding the analysed code from them gives the input back. |
| Pbb.GetTxEnv | src/pbb.rs:168-290 | Fails exactly when signer recovery fails. Otherwise: common fields come from the transaction; the gas price is the effective gas price at base fee zero; the access list is mirrored for encodings that have one; the priority fee is present only for EIP-1559/4844; blob hashes and blob fee are present only for EIP-4844; every other field keeps its default. |
| Pbb.ReplayBlockEnv | src/pbb.rs:118-134 | Number, timestamp and gas limit are the header's own, with no increment. Coinbase comes from the chain's rule. Base fee is the header's, or zero when absent. Difficulty is zero and prevrandao is the mix hash. A blob pair exists exactly when the header has excess blob gas; it carries that excess and the formula's price for it. |
| Pbb.ProjectTransactions | src/pbb.rs:136-139 | Succeeds exactly when every signer is recoverable. On success: one descriptor per transaction, in input order, each equal to the replay normalisation of that transaction. |
| Pbb.ConcurrencyLevel | src/pbb.rs:141 | The host's parallelism when it is known, otherwise one. Always at least one. |
| Pbb.ConvertAccounts | src/pbb.rs:95-112 | Succeeds exactly when every cached account has analysed code. On success it has the same addresses. Balance, nonce and storage are copied, the code hash is made explicit, and the code converts back to the cached code. |
| Pbb.EngineRequest | src/pbb.rs:95-151 | An account that cannot be converted aborts first, with AccountCodeUnsupported. When every account converts, the only other abort is SignatureUnrecoverable. The request exists exactly when all accounts convert and all signers recover. It carries: the converted accounts with the block hashes; the chain id; Cancun; the replay block environment; one descriptor per transaction, in order; exactly the concurrency level `ConcurrencyLevel` gives for the host's parallelism (at least one). |
| Pbb.Run | src/pbb.rs:143-160 | The engine runs exactly when the request can be built. Its single result, an error included, is the outcome of the whole batch. |
| BlockEnvs.NewBlobExcessGasAndPrice | src/reth.rs:62 | The pair keeps the excess blob gas it is given, priced by the blob-fee formula. |
| BlockEnvs.PairFor | src/reth.rs:62 | Gives a pair exactly when there is an excess blob gas. The pair carries that excess and its price. |
| States.ApplyChanges | src/reth.rs:101 | Every changed account takes its new value, and every other account keeps its old one. No account is lost. |
| Reth.NextExcessBlobGas | src/reth.rs:51-61 | The parent's signal when it gives one. Otherwise zero when the next rule set is Cancun, and nothing for any other rule set. |
| Reth.NextBlockEnv | src/reth.rs:45-73 | The number is the parent's plus one and the gas limit is the parent's. Timestamp, coinbase and prevrandao come from the payload attributes. Difficulty is zero. The base fee is the next-block formula under the timestamp's fee parameters, or zero. The blob pair follows the next excess blob gas and is priced. |
| Reth.CancunTransitionStartsAtZero | src/reth.rs:54-62 | At a Cancun block whose parent gives no blob signal, the block carries excess blob gas zero at its formula price. |
| Reth.NextBlockFollowsReplay | src/reth.rs:65-68 | The next block's number is one above the replay environment of its parent, and its gas limit equals that environment's. |
| Reth.EnvsFor | src/reth.rs:78-86 | One environment per transaction, in order. All share the chain id, the rule set and the block environment; each carries its own transaction's descriptor. |
| Reth.Step | src/reth.rs:93-102 | One iteration. A failure leaves the results and the state unchanged. A success appends exactly its result and commits exactly its changes. Earlier results are never altered, and no account disappears. |
| Reth.Replay | src/reth.rs:78-103 | The loop as a fold over the batch. It yields no more results than transactions, and every account of the start state is still present at the end. |
| Reth.ReplayKeepsSuccessesInOrder | src/reth.rs:78-104 | The loop's results are exactly the results of the successful executions, in input order. Its final state is the start state with exactly their changes committed, in order. |
| Reth.OutcomesPrefix | src/reth.rs:78-99 | The outcomes of the first i transactions do not depend on the transactions after them. |
| Reth.OutcomeSeesEarlierCommits | src/reth.rs:91-101 | Each transaction executes against the start state plus the committed changes of every earlier success. |
| Reth.FailureIsSkipped | src/reth.rs:93-98 | A failed execution adds no result and commits nothing. |
| Reth.SuccessIsCommitted | src/reth.rs:100-102 | A successful execution appends exactly its result and commits exactly its changes. |
| Reth.SuccessesCount | src/reth.rs:93-102 | There is exactly one result per successful execution, so never more results than transactions. There are as many exactly when no execution failed. |
| Reth.SuccessesMatchOkOutcomes | src/reth.rs:93-102 | The number of results equals the number of positions whose execution succeeded. |
| Reth.SuccessesAppend | src/reth.rs:102 | Collecting results distributes over concatenation of the batch. |
| Reth.CacheDb.constructor | src/reth.rs:43 | The cache starts as the state snapshot of the latest block. |
| Reth.CacheDb.Commit | src/reth.rs:101 | The new accounts are the old ones with the changes applied. |
| Reth.ExecuteReth | src/reth.rs:45-104 | Derives the rule set and the next block's environment once. The returned results and the cache's final accounts are those of the fold over the batch's environments. Never more results than transactions. |
| Lighthouse.New | src/lighthouse.rs:22-27 | The default endpoint is 127.0.0.1, port 5052. |
| Lighthouse.Decimal | src/lighthouse.rs:31 | The text of a number is non-empty and digits only, with no leading zero unless the number is zero. |
| Lighthouse.DecimalRoundTrip | src/lighthouse.rs:31 | The decimal text of a number reads back as that number. |
| Lighthouse.ParseDecimalCanonical | src/lighthouse.rs:31 | Every text read as a number is that number's decimal text. |
| Lighthouse.Ipv4TextRoundTrip | src/lighthouse.rs:31 | The dotted-quad text of an IPv4 address reads back as the address. |
| Lighthouse.HttpBaseUrl | src/lighthouse.rs:30-32 | The base URL reads back as the configured address and port, so it determines the endpoint. |
| Lighthouse.BaseUrlTextRoundTrip | src/lighthouse.rs:31 | Text of the form http://a.b.c.d:port reads back as that address and port. |
| Lighthouse.EventsUrl | src/lighthouse.rs:35-37 | The events URL is the base URL followed by the path /eth/v1/events. |
| Lighthouse.SubscriptionUrl | src/lighthouse.rs:52 | The subscription URL is the base URL followed by /eth/v1/events and the query ?topics=payload_attributes. |
| Lighthouse.SubscriptionUrlInjective | src/lighthouse.rs:35-52 | Distinct endpoints get distinct subscription URLs. |
| Lighthouse.DefaultSubscriptionUrl | src/lighthouse.rs:22-52 | The default client subscribes at http://127.0.0.1:5052/eth/v1/events?topics=payload_attributes. |
| Lighthouse.FirstSubscribed | src/lighthouse.rs:53-61 | The attempt that is taken subscribes, and every earlier attempt failed. Nothing is taken only when every attempt failed. |
| Lighthouse.FirstSubscribedAfterFailures | src/lighthouse.rs:53-61 | No retry bound: after any number of failures, the first success is the one taken. |
| Lighthouse.NewPayloadAttributesSubscription | src/lighthouse.rs:48-62 | Every attempt requests the subscription URL. Each failure is followed by a five-second sleep. The stream returned is that of the first successful attempt, after exactly as many sleeps as failures before it. |
| Lighthouse.Run | src/lighthouse.rs:40-45 | Still retrying exactly when no attempt subscribed. Otherwise the first item of the subscribed stream, or the abort of an empty stream. |

## Left out

- Reth.NextBlockEnv: the block number is computed on unbounded integers. The source's u64 `number + 1` would overflow at u64::MAX, which is not modelled.
- Lighthouse.NewPayloadAttributesSubscription: the source retries forever. The model consumes a finite sequence of attempt outcomes and returns no stream when they run out. Sleep is recorded as its duration, not performed.
- Lighthouse.Run: the await on the stream and the transport are not modelled. The stream is a finite sequence of items, and an empty stream stands for the panicking unwrap.
- Lighthouse: IPv6 addresses are not modelled; the source writes them without brackets (`http://::1:5052`), which is not a valid URL; the endpoint address is IPv4.
- States.ApplyChanges: overrides whole accounts. The execution library's commit behind `db.commit` (`src/reth.rs:101`) merges storage slot by slot, resets self-destructed accounts and skips untouched ones; none of that is modelled.
- Reth.CacheDb.Commit: commits through `States.ApplyChanges`, so it has the same account-granularity limitation.
- Bytecodes.BytecodeToEvmCode: requires analysed legacy code. The source aborts with `unimplemented!` on other code, and `src/pbb.rs:106` calls it without checking. In the model, `Pbb.ConvertAccounts` checks first and reports the abort as AccountCodeUnsupported.
- Utils.GetTxEnv and Pbb.GetTxEnv: the panicking unwrap of signer recovery is the error InvalidSignature.
- Pbb.Run: the source only logs the engine's result; the model returns it.
- JUMPDEST analysis of bytecode is not modelled: the jump table is carried as given.
- Signer recovery, the effective gas price, the base-fee and blob-fee formulas, the chain specification's lookups, EVM execution and the parallel engine are function parameters, with no model of their internals.
- `get_tx_env_reth` and `chain_spec`, imported by `src/reth.rs` from the utilities, are not part of this model. The descriptor function is a parameter of `Reth.ExecuteReth`.
- Database and provider access, Holesky chain-spec assembly and event-client construction are I/O (`src/reth.rs:24-44`, `src/pbb.rs:52-94`, `src/reth_db.rs`, `src/main.rs`). The model takes their results as parameters.
- Asynchrony, logging and tracing are not modelled.
