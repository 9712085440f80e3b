/** The on-chain verifier: commitments are registered, and each registration pays for one
    successful verification. */
module OrderVerifier {
  import opened OrderFields
  import opened Hashing

  class Verifier<D(==, !new)> {
    const sha: string -> D
    var validCommitments: set<D>

    constructor (sha: string -> D)
      ensures this.sha == sha && validCommitments == {}
    {
      this.sha := sha;
      validCommitments := {};
    }

    method CommitOrder(commitment: D)
      modifies this
      ensures validCommitments == Effect(sha, old(validCommitments), Commit(commitment))
    {
      validCommitments := validCommitments + {commitment};
    }

    method VerifyOrder(order: Order) returns (ok: bool)
      modifies this
      ensures ok <==> sha(Render(order)) in old(validCommitments)
      ensures validCommitments == Effect(sha, old(validCommitments), Verify(order))
    {
      var p1 := order.orderId + "|" + order.user + "|" + order.token + "|" + order.amount;
      var p2 := "|" + order.price + "|" + order.timestamp + "|" + order.nonce;
      LayersAgree(order);
      var generated := sha(p1 + p2);
      if generated !in validCommitments {
        return false;
      }
      validCommitments := validCommitments - {generated};
      return true;
    }
  }

  datatype Call<D> = Commit(commitment: D) | Verify(order: Order)

  /** What one call does to the registered commitments. */
  ghost function Effect<D(!new)>(sha: string -> D, valid: set<D>, c: Call<D>): set<D> {
    match c
    case Commit(d) => valid + {d}
    case Verify(o) => valid - {sha(Render(o))}
  }

  ghost function After<D(!new)>(sha: string -> D, calls: seq<Call<D>>): set<D> {
    if calls == [] then {} else
    Effect(sha, After(sha, calls[..|calls| - 1]), calls[|calls| - 1])
  }

  /** Call k verifies an order with digest d. */
  ghost predicate Verifies<D(!new)>(sha: string -> D, calls: seq<Call<D>>, k: nat, d: D) {
    k < |calls| && calls[k].Verify? && sha(Render(calls[k].order)) == d
  }

  /** Call k is a successful verification of digest d. */
  ghost predicate Succeeds<D(!new)>(sha: string -> D, calls: seq<Call<D>>, k: nat, d: D) {
    Verifies(sha, calls, k, d) && d in After(sha, calls[..k])
  }

  /** Call j registers d, and nothing verifies d between it and call k. */
  ghost predicate Pending<D(!new)>(sha: string -> D, calls: seq<Call<D>>, j: nat, k: nat, d: D) {
    j < k <= |calls| && calls[j] == Commit(d) && forall m :: j < m < k ==> !Verifies(sha, calls, m, d)
  }

  /** A digest is registered exactly when it was committed and not verified since. */
  lemma {:induction false} RegisteredIff<D(!new)>(sha: string -> D, calls: seq<Call<D>>, k: nat, d: D)
    requires k <= |calls|
    ensures d in After(sha, calls[..k]) <==> exists j :: Pending(sha, calls, j, k, d)
    decreases k
  {
    if k > 0 {
      var p := k - 1;
      assert calls[..k][..p] == calls[..p];
      RegisteredIff(sha, calls, p, d);
      if calls[p] == Commit(d) {
        assert Pending(sha, calls, p, k, d);
      } else if Verifies(sha, calls, p, d) {
        assert forall j :: !Pending(sha, calls, j, k, d);
      } else {
        if j :| Pending(sha, calls, j, p, d) {
          assert Pending(sha, calls, j, k, d);
        }
        if j :| Pending(sha, calls, j, k, d) {
          assert Pending(sha, calls, j, p, d);
        }
      }
    }
  }

  /** In every run, two successes on one digest are separated by a new commitOrder of it. */
  lemma NoReplay<D(!new)>(sha: string -> D, calls: seq<Call<D>>, i: nat, k: nat, d: D) returns (j: nat)
    requires i < k && Succeeds(sha, calls, i, d) && Succeeds(sha, calls, k, d)
    ensures i < j < k && calls[j] == Commit(d)
  {
    RegisteredIff(sha, calls, k, d);
    j :| Pending(sha, calls, j, k, d);
    assert Verifies(sha, calls, i, d);
  }

  /** A successful verification of a digest that GenerateCommitment made for an order
      without pipes is a verification of that very order, in all seven fields. */
  lemma SuccessMatchesOrder<D(!new)>(sha: string -> D, calls: seq<Call<D>>, k: nat, committed: Order)
    requires CollisionFree(sha) && AllPipeFree(Fields(committed))
    requires Succeeds(sha, calls, k, sha(Render(committed)))
    ensures calls[k].order == committed
    ensures exists j :: 0 <= j < k && calls[j] == Commit(sha(Render(committed)))
  {
    RenderingDecodesIff(committed);
    RegisteredIff(sha, calls, k, sha(Render(committed)));
    var j :| Pending(sha, calls, j, k, sha(Render(committed)));
  }

  /** With a pipe in any field the guarantee fails: some other order passes in its place. */
  lemma PipeLetsAnotherOrderPass<D(!new)>(sha: string -> D, committed: Order) returns (other: Order)
    requires !AllPipeFree(Fields(committed))
    ensures other != committed
    ensures Succeeds(sha, [Commit(sha(Render(committed))), Verify(other)], 1, sha(Render(committed)))
  {
    RenderingDecodesIff(committed);
    other :| Render(other) == Render(committed) && other != committed;
    var calls := [Commit(sha(Render(committed))), Verify(other)];
    assert calls[..1] == [Commit(sha(Render(committed)))];
    assert calls[..1][..0] == [];
  }
}
