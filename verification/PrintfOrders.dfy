/** Orders as the Go layer formats them: an amount and a price printed with %f and a
    timestamp printed with %d, and exactly when the rendering determines them. */
module PrintfOrders {
  import opened OrderFields

  // ---------------------------------------------------- what Printf can print

  predicate Digits(s: string) {
    |s| > 0 && forall i :: 0 <= i < |s| ==> '0' <= s[i] <= '9'
  }

  function Unsigned(s: string): string {
    if |s| > 0 && s[0] == '-' then s[1..] else s
  }

  /** The shape of %d. */
  predicate IntegerShape(s: string) {
    Digits(Unsigned(s))
  }

  /** The shape of %f: six decimals, or one of the three values that are not numbers. */
  predicate FloatShape(s: string) {
    || s == "NaN" || s == "+Inf" || s == "-Inf"
    || var u := Unsigned(s);
       |u| >= 8 && Digits(u[..|u| - 7]) && u[|u| - 7] == '.' && Digits(u[|u| - 6..])
  }

  /** The texts that %f and %d really print: some of those shapes, since not every decimal
      is the nearest one to a float64 and not every integer is an int64. */
  ghost predicate Printed(floats: string -> bool, integers: string -> bool) {
    && (forall s :: floats(s) ==> FloatShape(s))
    && (forall s :: integers(s) ==> IntegerShape(s))
  }

  /** An order that GenerateCommitment can receive. */
  ghost predicate GoOrder(floats: string -> bool, integers: string -> bool, o: Order) {
    floats(o.amount) && floats(o.price) && integers(o.timestamp)
  }

  lemma ShapesArePipeFree(s: string)
    ensures IntegerShape(s) || FloatShape(s) ==> PipeFree(s)
  {
    var u := Unsigned(s);
    assert !PipeFree(s) ==> !PipeFree(u) by {
      if i :| 0 <= i < |s| && s[i] == '|' {
        assert u == s || u[i - 1] == '|';
      }
    }
    if FloatShape(s) && s != "NaN" && s != "+Inf" && s != "-Inf" {
      assert u == u[..|u| - 7] + [u[|u| - 7]] + u[|u| - 6..];
    }
  }

  lemma ShapesDiffer(s: string)
    requires IntegerShape(s)
    ensures !FloatShape(s)
  {
    var u := Unsigned(s);
    assert '0' <= u[0] <= '9';
    if |u| >= 8 {
      assert '0' <= u[|u| - 7] <= '9';
    }
  }

  // ---------------------------------------------------------------- segments

  /** The parts of a string between its pipes. */
  function Split(s: string): (parts: seq<string>)
    ensures |parts| > 0
  {
    if s == "" then [""] else
    var rest := Split(s[1..]);
    if s[0] == '|' then [""] + rest else [[s[0]] + rest[0]] + rest[1..]
  }

  lemma {:induction false} SplitInverts(s: string)
    ensures AllPipeFree(Split(s)) && Join(Split(s)) == s
    decreases |s|
  {
    if s != "" {
      SplitInverts(s[1..]);
      var rest := Split(s[1..]);
      assert s == [s[0]] + s[1..];
      if s[0] == '|' {
        assert ([""] + rest)[1..] == rest;
      } else {
        assert Split(s)[1..] == rest[1..];
      }
    }
  }

  lemma {:induction false} JoinConcat(f: seq<string>, g: seq<string>)
    requires f != [] && g != []
    ensures Join(f + g) == Join(f) + "|" + Join(g)
    decreases |f|
  {
    if |f| == 1 {
      assert (f + g)[1..] == g;
    } else {
      assert (f + g)[1..] == f[1..] + g;
      JoinConcat(f[1..], g);
    }
  }

  /** Two pipe-free lists with one rendering are the same list, whatever their lengths. */
  lemma PipeFreeListsAgree(f: seq<string>, g: seq<string>)
    requires f != [] && g != [] && AllPipeFree(f) && AllPipeFree(g) && Join(f) == Join(g)
    ensures f == g
  {
    PipesOfJoin(f);
    PipesOfJoin(g);
    JoinInjective(f, g);
  }

  lemma JoinSplit(s: string, rest: seq<string>)
    requires rest != []
    ensures Join(Split(s) + rest) == s + "|" + Join(rest)
  {
    SplitInverts(s);
    JoinConcat(Split(s), rest);
  }

  /** All segments of an order's rendering. */
  function Segments(o: Order): (f: seq<string>)
    ensures f != []
  {
    Split(o.orderId) + (Split(o.user) + (Split(o.token) + ([o.amount, o.price, o.timestamp] + Split(o.nonce))))
  }

  /** Where the amount stands among the segments. */
  function AmountAt(o: Order): (i: nat)
    ensures i >= 3
  {
    |Split(o.orderId)| + |Split(o.user)| + |Split(o.token)|
  }

  lemma SegmentsAt(o: Order)
    ensures var f, i := Segments(o), AmountAt(o);
            && |f| == i + 3 + |Split(o.nonce)|
            && f[i] == o.amount && f[i + 1] == o.price && f[i + 2] == o.timestamp
            && f[i + 3..] == Split(o.nonce)
            && (i == 3 ==> f[0] == Split(o.orderId)[0] && f[1] == Split(o.user)[0] && f[2] == Split(o.token)[0])
  {
  }

  lemma RenderNested(o: Order)
    ensures Render(o) == o.orderId + "|" + (o.user + "|" + (o.token + "|" +
                         Join([o.amount, o.price, o.timestamp, o.nonce])))
  {
    var f := Fields(o);
    assert f[1..][1..] == f[2..] && f[2..][1..] == f[3..];
    assert f[3..] == [o.amount, o.price, o.timestamp, o.nonce];
    assert Join(f[2..]) == o.token + "|" + Join(f[3..]);
    assert Join(f[1..]) == o.user + "|" + Join(f[2..]);
  }

  lemma SegmentsRender(o: Order)
    ensures Join(Segments(o)) == Render(o)
  {
    var numbers := [o.amount, o.price, o.timestamp];
    var tail := numbers + Split(o.nonce);
    SplitInverts(o.nonce);
    JoinConcat(numbers, Split(o.nonce));
    JoinConcat(numbers, [o.nonce]);
    assert numbers + [o.nonce] == [o.amount, o.price, o.timestamp, o.nonce];
    JoinSplit(o.token, tail);
    JoinSplit(o.user, Split(o.token) + tail);
    JoinSplit(o.orderId, Split(o.user) + (Split(o.token) + tail));
    RenderNested(o);
  }

  lemma SegmentsPipeFree(floats: string -> bool, integers: string -> bool, o: Order)
    requires Printed(floats, integers) && GoOrder(floats, integers, o)
    ensures AllPipeFree(Segments(o))
  {
    NumbersPipeFree(floats, integers, o);
    AddSplit([o.amount, o.price, o.timestamp], o.nonce);
    var tail := [o.amount, o.price, o.timestamp] + Split(o.nonce);
    SplitBefore(o.token, tail);
    SplitBefore(o.user, Split(o.token) + tail);
    SplitBefore(o.orderId, Split(o.user) + (Split(o.token) + tail));
  }

  lemma NumbersPipeFree(floats: string -> bool, integers: string -> bool, o: Order)
    requires Printed(floats, integers) && GoOrder(floats, integers, o)
    ensures AllPipeFree([o.amount, o.price, o.timestamp])
  {
    ShapesArePipeFree(o.amount);
    ShapesArePipeFree(o.price);
    ShapesArePipeFree(o.timestamp);
  }

  lemma SplitBefore(s: string, rest: seq<string>)
    requires AllPipeFree(rest)
    ensures AllPipeFree(Split(s) + rest)
  {
    SplitInverts(s);
  }

  lemma AddSplit(head: seq<string>, s: string)
    requires AllPipeFree(head)
    ensures AllPipeFree(head + Split(s))
  {
    SplitInverts(s);
  }

  // ------------------------------------------------------------ the theorem

  /** Part k of a list could be read as the amount of an order. */
  ghost predicate ReadsAsOrder(floats: string -> bool, integers: string -> bool, parts: seq<string>, k: nat) {
    k + 3 < |parts| && floats(parts[k]) && floats(parts[k + 1]) && integers(parts[k + 2])
  }

  /** Somewhere between its pipes the nonce holds an amount, a price and a timestamp, with
      something after them. */
  ghost predicate HoldsOrder(floats: string -> bool, integers: string -> bool, nonce: string) {
    exists k: nat :: ReadsAsOrder(floats, integers, Split(nonce), k)
  }

  ghost predicate Unambiguous(floats: string -> bool, integers: string -> bool, o: Order) {
    && PipeFree(o.orderId) && PipeFree(o.user) && PipeFree(o.token)
    && !HoldsOrder(floats, integers, o.nonce)
  }

  lemma SplitPipeFree(s: string)
    ensures PipeFree(s) <==> Split(s) == [s]
    ensures |Split(s)| == 1 ==> Split(s) == [s]
  {
    SplitInverts(s);
    PipesOfJoin(Split(s));
    PipesOfConcat(s, "");
  }

  /** Another Go order with the same segments has its amount at the same place. */
  lemma SamePlace(floats: string -> bool, integers: string -> bool, o: Order, p: Order)
    requires Printed(floats, integers) && GoOrder(floats, integers, o) && GoOrder(floats, integers, p)
    requires Segments(o) == Segments(p) && Unambiguous(floats, integers, o)
    ensures AmountAt(o) == 3 == AmountAt(p)
  {
    var i := AmountAt(p);
    SplitPipeFree(o.orderId);
    SplitPipeFree(o.user);
    SplitPipeFree(o.token);
    SegmentsAt(o);
    SegmentsAt(p);
    ShapesDiffer(o.timestamp);
    if i > 3 {
      assert i != 4 && i != 5;
      var parts := Split(o.nonce);
      assert parts == Segments(o)[6..];
      assert ReadsAsOrder(floats, integers, parts, i - 6);
    }
  }

  lemma GoDecodes(floats: string -> bool, integers: string -> bool, o: Order, p: Order)
    requires Printed(floats, integers) && GoOrder(floats, integers, o) && GoOrder(floats, integers, p)
    requires Render(p) == Render(o) && Unambiguous(floats, integers, o)
    ensures p == o
  {
    SegmentsRender(o);
    SegmentsRender(p);
    SegmentsPipeFree(floats, integers, o);
    SegmentsPipeFree(floats, integers, p);
    PipeFreeListsAgree(Segments(o), Segments(p));
    SamePlace(floats, integers, o, p);
    SegmentsAt(o);
    SegmentsAt(p);
    SplitPipeFree(o.orderId);
    SplitPipeFree(o.user);
    SplitPipeFree(o.token);
    SplitPipeFree(p.orderId);
    SplitPipeFree(p.user);
    SplitPipeFree(p.token);
    SplitInverts(o.nonce);
    SplitInverts(p.nonce);
  }

  /** A pipe in one of the three leading strings can be moved to another of them. */
  lemma LeadingPipe(o: Order) returns (p: Order)
    requires !(PipeFree(o.orderId) && PipeFree(o.user) && PipeFree(o.token))
    ensures p != o && Render(p) == Render(o)
    ensures p.amount == o.amount && p.price == o.price && p.timestamp == o.timestamp
  {
    var f := [o.orderId, o.user, o.token];
    assert !AllPipeFree(f) by {
      assert f[0] == o.orderId && f[1] == o.user && f[2] == o.token;
    }
    var g := PipeIsAmbiguous(f);
    p := o.(orderId := g[0], user := g[1], token := g[2]);
    assert g == [g[0], g[1], g[2]];
    var rest := Fields(o)[3..];
    assert Fields(o) == f + rest && Fields(p) == g + rest;
    JoinConcat(f, rest);
    JoinConcat(g, rest);
  }

  /** The order that reads its amount, price and timestamp out of the nonce of `o`. */
  function Shifted(o: Order, k: nat): Order
    requires k + 3 < |Split(o.nonce)|
  {
    var parts := Split(o.nonce);
    Order(Join([o.orderId, o.user, o.token, o.amount]), o.price, Join([o.timestamp] + parts[..k]),
          parts[k], parts[k + 1], parts[k + 2], Join(parts[k + 3..]))
  }

  lemma JoinHead(f: seq<string>, rest: seq<string>)
    requires f != [] && rest != []
    ensures Join([Join(f)] + rest) == Join(f + rest)
  {
    JoinConcat(f, rest);
    JoinConcat([Join(f)], rest);
  }

  /** Joining the first and the last group beforehand does not matter. */
  lemma Regroup(first: seq<string>, middle: seq<string>, last: seq<string>)
    requires first != [] && middle != [] && last != []
    ensures Join([Join(first)] + (middle + [Join(last)])) == Join(first + (middle + last))
  {
    JoinConcat(middle, last);
    JoinConcat(first, middle + last);
    JoinConcat(middle, [Join(last)]);
    JoinConcat([Join(first)], middle + [Join(last)]);
  }

  lemma CutAround(head: seq<string>, parts: seq<string>, k: nat)
    requires k + 3 < |parts|
    ensures head + parts == (head + parts[..k]) + ([parts[k], parts[k + 1], parts[k + 2]] + parts[k + 3..])
  {
  }

  /** From the token on, the shifted order renders like the timestamp and the nonce of `o`. */
  lemma ShiftedTail(timestamp: string, nonce: string, k: nat)
    requires k + 3 < |Split(nonce)|
    ensures var parts := Split(nonce);
            Join([Join([timestamp] + parts[..k])] +
                 ([parts[k], parts[k + 1], parts[k + 2]] + [Join(parts[k + 3..])]))
            == timestamp + "|" + nonce
  {
    var parts := Split(nonce);
    Regroup([timestamp] + parts[..k], [parts[k], parts[k + 1], parts[k + 2]], parts[k + 3..]);
    CutAround([timestamp], parts, k);
    SplitInverts(nonce);
    JoinConcat([timestamp], parts);
  }

  lemma ShiftedRendersAlike(o: Order, k: nat)
    requires k + 3 < |Split(o.nonce)|
    ensures Render(Shifted(o, k)) == Render(o) && Shifted(o, k) != o
  {
    var p := Shifted(o, k);
    var id := [o.orderId, o.user, o.token, o.amount];
    var tail := [p.token] + ([p.amount, p.price, p.timestamp] + [p.nonce]);
    ShiftedTail(o.timestamp, o.nonce, k);
    assert Join([o.timestamp, o.nonce]) == o.timestamp + "|" + o.nonce;
    JoinConcat([o.price], tail);
    JoinConcat([o.price], [o.timestamp, o.nonce]);
    JoinHead(id, [o.price] + tail);
    JoinConcat(id, [o.price] + tail);
    JoinConcat(id, [o.price] + [o.timestamp, o.nonce]);
    assert Fields(p) == [p.orderId] + ([o.price] + tail);
    assert Fields(o) == id + ([o.price] + [o.timestamp, o.nonce]);
    LongerId(o);
  }

  lemma LongerId(o: Order)
    ensures |Join([o.orderId, o.user, o.token, o.amount])| > |o.orderId|
  {
    var f := [o.orderId, o.user, o.token, o.amount];
    assert Join(f) == o.orderId + "|" + Join(f[1..]);
  }

  /** Exactly when the pipe format keeps the Go layer's field assignments apart: among the
      orders that GenerateCommitment can receive, one is determined by its rendering if and
      only if no pipe stands in its order ID, user or token and its nonce does not hold an
      amount, a price and a timestamp between pipes. */
  lemma GoRenderingDecodesIff(floats: string -> bool, integers: string -> bool, o: Order)
    requires Printed(floats, integers) && GoOrder(floats, integers, o)
    ensures (forall p: Order :: GoOrder(floats, integers, p) && Render(p) == Render(o) ==> p == o)
            <==> Unambiguous(floats, integers, o)
  {
    if Unambiguous(floats, integers, o) {
      forall p: Order | GoOrder(floats, integers, p) && Render(p) == Render(o) ensures p == o {
        GoDecodes(floats, integers, o, p);
      }
    } else if HoldsOrder(floats, integers, o.nonce) {
      var k: nat :| ReadsAsOrder(floats, integers, Split(o.nonce), k);
      ShiftedRendersAlike(o, k);
      assert GoOrder(floats, integers, Shifted(o, k));
    } else {
      var p := LeadingPipe(o);
      assert GoOrder(floats, integers, p);
    }
  }

  /** A pipe in the nonce can be harmless among Go orders, although the contract's arbitrary
      strings make the same rendering ambiguous. */
  lemma PipeInNonceCanBeHarmless(floats: string -> bool, integers: string -> bool, o: Order, p: Order)
    requires Printed(floats, integers) && GoOrder(floats, integers, o) && GoOrder(floats, integers, p)
    requires PipeFree(o.orderId) && PipeFree(o.user) && PipeFree(o.token) && Pipes(o.nonce) <= 2
    requires Render(p) == Render(o)
    ensures p == o
  {
    SplitInverts(o.nonce);
    PipesOfJoin(Split(o.nonce));
    GoDecodes(floats, integers, o, p);
  }

  /** And it can do harm: repeating an order's own numbers in its nonce, with anything after
      them, gives another Go order the same rendering. */
  lemma NonceCanHoldAnOrder(floats: string -> bool, integers: string -> bool, o: Order, rest: string)
    returns (p: Order)
    requires Printed(floats, integers) && GoOrder(floats, integers, o)
    requires o.nonce == Join([o.amount, o.price, o.timestamp, rest])
    ensures GoOrder(floats, integers, p) && p != o && Render(p) == Render(o)
  {
    var numbers := [o.amount, o.price, o.timestamp];
    var parts := numbers + Split(rest);
    assert numbers + [rest] == [o.amount, o.price, o.timestamp, rest];
    JoinConcat(numbers, [rest]);
    JoinConcat(numbers, Split(rest));
    SplitInverts(rest);
    SplitInverts(o.nonce);
    ShapesArePipeFree(o.amount);
    ShapesArePipeFree(o.price);
    ShapesArePipeFree(o.timestamp);
    PipeFreeListsAgree(Split(o.nonce), parts);
    p := Shifted(o, 0);
    ShiftedRendersAlike(o, 0);
  }
}
