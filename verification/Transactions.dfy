/** The transaction that every stage of the sequencer passes on. */
module Transactions {

  type Byte = b: int | 0 <= b < 256

  type Bytes = seq<Byte>

  /** An encrypted transaction with the metadata the sequencer stamps on it. */
  datatype Tx = Tx(id: nat, arrivedAt: int, ciphertext: Bytes)

  /** Several lists, one after another. */
  ghost function Flatten(parts: seq<seq<Tx>>): seq<Tx> {
    if parts == [] then [] else Flatten(parts[..|parts| - 1]) + parts[|parts| - 1]
  }

  ghost predicate IncreasingIds(txs: seq<Tx>) {
    forall i, j :: 0 <= i < j < |txs| ==> txs[i].id < txs[j].id
  }

  ghost predicate Increasing(s: seq<nat>) {
    forall i, j :: 0 <= i < j < |s| ==> s[i] < s[j]
  }
}
