/** The parsed transaction that both the mempool filter and the decision path work on. */
module Transactions {
  import opened Options

  datatype TargetType = UniswapV2 | UniswapV3 | SushiSwap | Curve | Balancer | OrderBook | Unknown

  /** `functionSignature` is the one of the decoded input, if decoding succeeded. */
  datatype ParsedTransaction = ParsedTransaction(
    hash: string, from: string, to: Option<string>, value: string, gasPrice: string, input: string,
    functionSignature: Option<string>, targetType: TargetType)
}
