/** The outcome kinds the LZW decoder reports to its callers. */
module Lzw {

  /** What a read or a step returns. */
  datatype LzwResult =
    | Ok     // the request was met
    | OkEod  // a terminator (zero-size sub-block) was met, which ends the chain normally
    | NoMem  // an allocation failed
    | NoData // the input ran out before the request could be met
}
