/** The data messages carry, with histories and values as plain numbers. */
module DataPairs {
  type Hist = int
  type Value = int

  /** A history with the values that share it. */
  datatype Pair = Pair(hist: Hist, values: seq<Value>)
}
