/** An optional value. */
module Options {
  datatype Option<+T> = None | Some(value: T)
}

/** How a durable step can end: done, failed without effect, or failed after its effect. */
module Faults {
  datatype Fault = Fine | Lost | Late
}

module Maps {
  lemma SizeIsKeys<K, V>(m: map<K, V>)
    ensures |m| == |m.Keys|
  {
  }
}
