/** The pipe-delimited rendering of an order: what the Go layer hashes and what the
    contract rebuilds, and when it determines the seven fields. */
module OrderFields {

  /** An order as its seven rendered fields. */
  datatype Order = Order(orderId: string, user: string, token: string, amount: string,
                         price: string, timestamp: string, nonce: string)

  function Fields(o: Order): (f: seq<string>)
    ensures |f| == 7
  {
    [o.orderId, o.user, o.token, o.amount, o.price, o.timestamp, o.nonce]
  }

  function Join(fields: seq<string>): string {
    if fields == [] then ""
    else if |fields| == 1 then fields[0]
    else fields[0] + "|" + Join(fields[1..])
  }

  /** The string that GenerateCommitment formats. */
  function Render(o: Order): string {
    Join(Fields(o))
  }

  /** The string that verifyOrder packs in two parts. */
  function Packed(o: Order): string {
    var p1 := o.orderId + "|" + o.user + "|" + o.token + "|" + o.amount;
    var p2 := "|" + o.price + "|" + o.timestamp + "|" + o.nonce;
    p1 + p2
  }

  /** The two layers agree on the bytes. */
  lemma LayersAgree(o: Order)
    ensures Packed(o) == Render(o)
  {
    var f := Fields(o);
    assert Join(f[6..]) == o.nonce;
    assert Join(f[5..]) == o.timestamp + "|" + o.nonce by { assert f[5..][1..] == f[6..]; }
    assert Join(f[4..]) == o.price + "|" + Join(f[5..]) by { assert f[4..][1..] == f[5..]; }
    assert Join(f[3..]) == o.amount + "|" + Join(f[4..]) by { assert f[3..][1..] == f[4..]; }
    assert Join(f[2..]) == o.token + "|" + Join(f[3..]) by { assert f[2..][1..] == f[3..]; }
    assert Join(f[1..]) == o.user + "|" + Join(f[2..]) by { assert f[1..][1..] == f[2..]; }
    assert Join(f) == o.orderId + "|" + Join(f[1..]);
    assert Packed(o) == Join(f);
  }

  /** The fields stand in the order ID, user, token, amount, price, timestamp, nonce. */
  lemma RenderExample()
    ensures Render(Order("i", "u", "t", "a", "p", "s", "n")) == "i|u|t|a|p|s|n"
  {
    var o := Order("i", "u", "t", "a", "p", "s", "n");
    LayersAgree(o);
    assert "i" + "|" + "u" + "|" + "t" + "|" + "a" == "i|u|t|a";
    assert "|" + "p" + "|" + "s" + "|" + "n" == "|p|s|n";
    assert Packed(o) == "i|u|t|a" + "|p|s|n";
  }

  ghost predicate PipeFree(s: string) {
    '|' !in s
  }

  ghost predicate AllPipeFree(fields: seq<string>) {
    forall i :: 0 <= i < |fields| ==> PipeFree(fields[i])
  }

  ghost function Pipes(s: string): nat {
    multiset(s)['|']
  }

  lemma PipesOfConcat(a: string, b: string)
    ensures Pipes(a + "|" + b) == Pipes(a) + 1 + Pipes(b)
    ensures Pipes(a) == 0 <==> PipeFree(a)
  {
    assert multiset(a + "|" + b) == multiset(a) + multiset{'|'} + multiset(b);
    assert '|' in multiset(a) <==> '|' in a;
  }

  /** A rendering has one pipe per separator, plus those inside the fields. */
  lemma {:induction false} PipesOfJoin(fields: seq<string>)
    requires fields != []
    ensures Pipes(Join(fields)) >= |fields| - 1
    ensures Pipes(Join(fields)) == |fields| - 1 <==> AllPipeFree(fields)
    decreases |fields|
  {
    PipesOfConcat(fields[0], "");
    if |fields| > 1 {
      PipesOfJoin(fields[1..]);
      PipesOfConcat(fields[0], Join(fields[1..]));
      assert AllPipeFree(fields) <==> PipeFree(fields[0]) && AllPipeFree(fields[1..]) by {
        assert fields == [fields[0]] + fields[1..];
      }
    }
  }

  /** Pipe-free heads in front of the same string are equal. */
  lemma FirstPipe(a: string, x: string, b: string, y: string)
    requires PipeFree(a) && PipeFree(b) && a + "|" + x == b + "|" + y
    ensures a == b && x == y
  {
    var s, t := a + "|" + x, b + "|" + y;
    FirstPipePosition(a, x, s, |b|);
    FirstPipePosition(b, y, t, |a|);
    assert s[|a|] == '|' && t[|b|] == '|';
    assert a == s[..|a|] && b == t[..|b|];
    assert x == s[|a| + 1..] && y == t[|b| + 1..];
  }

  lemma FirstPipePosition(a: string, x: string, s: string, i: nat)
    requires PipeFree(a) && s == a + "|" + x && i < |s| && s[i] == '|'
    ensures |a| <= i
  {
  }

  lemma {:induction false} JoinInjective(f: seq<string>, g: seq<string>)
    requires |f| == |g| > 0 && AllPipeFree(f) && AllPipeFree(g) && Join(f) == Join(g)
    ensures f == g
    decreases |f|
  {
    if |f| > 1 {
      FirstPipe(f[0], Join(f[1..]), g[0], Join(g[1..]));
      JoinInjective(f[1..], g[1..]);
    }
    assert f == [f[0]] + f[1..] && g == [g[0]] + g[1..];
  }

  /** Fields free of the delimiter are determined by the rendering, among all lists of
      fields of that length. */
  lemma PipeFreeDecodes(f: seq<string>, g: seq<string>)
    requires |f| == |g| > 0 && AllPipeFree(f) && Join(f) == Join(g)
    ensures f == g
  {
    PipesOfJoin(f);
    PipesOfJoin(g);
    JoinInjective(f, g);
  }

  lemma SplitAtPipe(s: string) returns (x: string, y: string)
    requires !PipeFree(s)
    ensures s == x + "|" + y
  {
    var i :| 0 <= i < |s| && s[i] == '|';
    x, y := s[..i], s[i + 1..];
  }

  /** Conversely, a delimiter inside any field makes the rendering ambiguous. */
  lemma {:induction false} PipeIsAmbiguous(f: seq<string>) returns (g: seq<string>)
    requires |f| >= 2 && !AllPipeFree(f)
    ensures |g| == |f| && g != f && Join(g) == Join(f)
    decreases |f|
  {
    var rest := f[2..];
    if !PipeFree(f[0]) {
      var x, y := SplitAtPipe(f[0]);
      g := [x, y + "|" + f[1]] + rest;
      assert |x| < |f[0]|;
      JoinPair(f[0], f[1], rest);
      JoinPair(x, y + "|" + f[1], rest);
      assert f == [f[0], f[1]] + rest;
      SamePair(x, y, f[1], rest);
    } else if |f| == 2 {
      var x, y := SplitAtPipe(f[1]);
      g := [f[0] + "|" + x, y];
      assert |g[0]| > |f[0]|;
      assert f[0] + "|" + (x + "|" + y) == f[0] + "|" + x + "|" + y;
    } else {
      var h := PipeIsAmbiguous(f[1..]);
      g := [f[0]] + h;
      assert g[1..] == h && f == [f[0]] + f[1..];
    }
  }

  lemma JoinPair(a: string, b: string, rest: seq<string>)
    ensures Join([a, b] + rest) == a + "|" + Join([b] + rest)
    ensures Join([b] + rest) == if rest == [] then b else b + "|" + Join(rest)
  {
    assert ([a, b] + rest)[1..] == [b] + rest && ([b] + rest)[1..] == rest;
  }

  /** Moving a pipe across a field boundary does not change the rendering. */
  lemma SamePair(x: string, y: string, b: string, rest: seq<string>)
    ensures x + "|" + Join([y + "|" + b] + rest) == x + "|" + y + "|" + Join([b] + rest)
  {
    JoinPair(x, y + "|" + b, rest);
    JoinPair(x, b, rest);
    var tail := if rest == [] then "" else "|" + Join(rest);
    assert Join([y + "|" + b] + rest) == y + "|" + b + tail;
    assert Join([b] + rest) == b + tail;
    assert x + "|" + (y + "|" + b + tail) == x + "|" + y + "|" + (b + tail);
  }

  /** Among the contract's orders, whose seven fields are arbitrary strings, an order can be
      recovered from its rendering exactly when no field holds a pipe. */
  lemma RenderingDecodesIff(o: Order)
    ensures (forall p: Order :: Render(p) == Render(o) ==> p == o) <==> AllPipeFree(Fields(o))
  {
    if AllPipeFree(Fields(o)) {
      forall p: Order | Render(p) == Render(o) ensures p == o {
        PipeFreeDecodes(Fields(o), Fields(p));
        assert Fields(o)[0] == o.orderId && Fields(o)[1] == o.user && Fields(o)[2] == o.token;
      }
    } else {
      var g := PipeIsAmbiguous(Fields(o));
      var p := Order(g[0], g[1], g[2], g[3], g[4], g[5], g[6]);
      assert Fields(p) == g;
      assert Render(p) == Render(o) && p != o;
    }
  }
}
