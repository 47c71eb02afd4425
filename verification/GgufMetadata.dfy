/** The metadata record that the GGUF reader produces and the memory estimator consumes. */
module GgufMetadata {

  datatype Metadata = Metadata(
    architecture: string, name: string,
    trainedCtx: int, parameterCount: int, quantType: string,
    blockCount: int, embeddingLength: int, headCount: int, headCountKV: seq<int>,
    keyLength: int, valueLength: int, keyLengthSWA: int, valueLengthSWA: int,
    slidingWindow: int, swaPattern: seq<bool>, hybrid: bool)

  /** Go's zero value. */
  const EMPTY: Metadata :=
    Metadata("", "", 0, 0, "", 0, 0, 0, [], 0, 0, 0, 0, 0, [], false)
}
