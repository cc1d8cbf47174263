/**
 * Invoice::generateCustomId (app/Models/Invoice.php): a do-while loop that
 * draws two random characters and a number in 0..9999, builds
 * upper(chars) + str_pad(number, 4, '0', STR_PAD_LEFT), and repeats while
 * that id is already taken.
 *
 * The randomness is an input: each Draw is what one pass of the loop body
 * obtains from Str::random(2) and random_int(0, 9999). The ids already taken
 * are a set; the source's existence query names a column (product_id) that
 * the invoices table does not have, and the model performs the intended
 * membership test on invoice ids instead.
 */
module InvoiceIds {
  import opened Text

  /** What one pass of the loop body draws: Str::random(2) and random_int(0, 9999). */
  datatype Draw = Draw(random: string, number: int)

  /** Str::random yields alphanumeric characters; random_int(0, 9999) stays in range. */
  predicate WellFormedDraw(d: Draw) {
    |d.random| == 2 && IsAlphanumeric(d.random[0]) && IsAlphanumeric(d.random[1])
    && 0 <= d.number <= 9999
  }

  predicate WellFormedDraws(draws: seq<Draw>) {
    forall i :: 0 <= i < |draws| ==> WellFormedDraw(draws[i])
  }

  /** Str::upper on one character of Str::random's alphabet. */
  function Upper(c: char): (u: char)
    ensures IsAlphanumeric(c) ==> IsUpper(u) || IsDigit(u)
    ensures IsUpper(u) <==> IsUpper(c) || IsLower(c)
  {
    if IsLower(c) then ((c as int) - 32) as char else c
  }

  function UpperString(s: string): (u: string)
    ensures |u| == |s| && forall i :: 0 <= i < |s| ==> u[i] == Upper(s[i])
  {
    seq(|s|, i requires 0 <= i < |s| => Upper(s[i]))
  }

  /** The id one pass of the loop body builds: `$chars . $digits`. */
  function CandidateId(d: Draw): string
    requires WellFormedDraw(d)
  {
    UpperString(d.random) + Pad4(d.number)
  }

  /** Some draw in the stream yields an id that is not taken, so the loop stops. */
  predicate HasFreshDraw(draws: seq<Draw>, taken: set<string>) {
    WellFormedDraws(draws) && exists i :: 0 <= i < |draws| && CandidateId(draws[i]) !in taken
  }

  /** The index of the draw at which the loop stops: the first whose id is not taken. */
  function FirstFreshIndex(draws: seq<Draw>, taken: set<string>): (k: nat)
    requires HasFreshDraw(draws, taken)
    ensures k < |draws| && CandidateId(draws[k]) !in taken
    ensures forall j :: 0 <= j < k ==> CandidateId(draws[j]) in taken
    decreases |draws|
  {
    if CandidateId(draws[0]) !in taken then 0
    else
      assert forall i :: 1 <= i < |draws| ==> draws[1..][i - 1] == draws[i];
      1 + FirstFreshIndex(draws[1..], taken)
  }

  /** The id the loop returns. */
  function GeneratedId(draws: seq<Draw>, taken: set<string>): (id: string)
    requires HasFreshDraw(draws, taken)
    ensures id !in taken
    ensures exists k :: 0 <= k < |draws| && id == CandidateId(draws[k])
  {
    CandidateId(draws[FirstFreshIndex(draws, taken)])
  }

  /**
   * The do-while loop of generateCustomId: build an id from the next draw and
   * repeat while it is taken. Returns the first id that is not taken.
   */
  method GenerateCustomId(draws: seq<Draw>, taken: set<string>) returns (id: string)
    requires HasFreshDraw(draws, taken)
    ensures id !in taken
    ensures exists k :: (0 <= k < |draws| && id == CandidateId(draws[k])
      && forall j :: 0 <= j < k ==> CandidateId(draws[j]) in taken)
    ensures id == GeneratedId(draws, taken)
  {
    var k := 0;
    id := CandidateId(draws[0]);
    while id in taken
      invariant 0 <= k < |draws|
      invariant id == CandidateId(draws[k])
      invariant forall j :: 0 <= j < k ==> CandidateId(draws[j]) in taken
      decreases |draws| - k
    {
      k := k + 1;
      id := CandidateId(draws[k]);
    }
    var f := FirstFreshIndex(draws, taken);
    assert !(f < k) && !(k < f);
  }

  /**
   * Every candidate id is six characters: two upper-case letters or digits
   * (one pass of Str::upper over Str::random's alphabet), then four digits that
   * read back as the drawn number.
   */
  lemma CandidateIdFormat(d: Draw)
    requires WellFormedDraw(d)
    ensures var id := CandidateId(d);
      && |id| == 6
      && (IsUpper(id[0]) || IsDigit(id[0])) && (IsUpper(id[1]) || IsDigit(id[1]))
      && AllDigits(id[2..]) && ParseDigits(id[2..]) == d.number
  {
    var id := CandidateId(d);
    Pad4RoundTrip(d.number);
    assert id[2..] == Pad4(d.number);
  }

  /** When both drawn characters are letters, the id matches ^[A-Z]{2}[0-9]{4}$. */
  lemma CandidateIdShape(d: Draw)
    requires WellFormedDraw(d)
    requires (IsUpper(d.random[0]) || IsLower(d.random[0])) && (IsUpper(d.random[1]) || IsLower(d.random[1]))
    ensures IsIdShape(CandidateId(d))
  {
    CandidateIdFormat(d);
  }

  /** Str::random may draw a digit, and then the id does not have the two-letter shape. */
  lemma DrawnDigitBreaksShape()
    ensures WellFormedDraw(Draw("a1", 42))
    ensures CandidateId(Draw("a1", 42)) == "A10042"
    ensures !IsIdShape(CandidateId(Draw("a1", 42)))
  {
    var d := Draw("a1", 42);
    assert DecimalString(42) == "42" by {
      assert DecimalString(4) == "4";
    }
    assert Pad4(42) == "0042";
    assert UpperString("a1") == "A1";
  }

  /** The generated id is six characters and is not among the taken ids. */
  lemma GeneratedIdFormat(draws: seq<Draw>, taken: set<string>)
    requires HasFreshDraw(draws, taken)
    ensures GeneratedId(draws, taken) !in taken
    ensures |GeneratedId(draws, taken)| == 6 && AllDigits(GeneratedId(draws, taken)[2..])
  {
    CandidateIdFormat(draws[FirstFreshIndex(draws, taken)]);
  }

  /** Letter-only draws give an id of the shape ^[A-Z]{2}[0-9]{4}$. */
  lemma GeneratedIdShape(draws: seq<Draw>, taken: set<string>)
    requires HasFreshDraw(draws, taken)
    requires forall i :: 0 <= i < |draws| ==>
      (IsUpper(draws[i].random[0]) || IsLower(draws[i].random[0]))
      && (IsUpper(draws[i].random[1]) || IsLower(draws[i].random[1]))
    ensures IsIdShape(GeneratedId(draws, taken))
  {
    CandidateIdShape(draws[FirstFreshIndex(draws, taken)]);
  }

  /** A second generation, against the taken ids plus the first result, yields a different id. */
  lemma SuccessiveIdsDistinct(first: seq<Draw>, second: seq<Draw>, taken: set<string>)
    requires HasFreshDraw(first, taken)
    requires HasFreshDraw(second, taken + {GeneratedId(first, taken)})
    ensures GeneratedId(second, taken + {GeneratedId(first, taken)}) != GeneratedId(first, taken)
  {
  }

  // ---- The keyspace of ^[A-Z]{2}[0-9]{4}$ has 26 * 26 * 10000 ids ----

  function Letter(i: nat): (c: char)
    requires i < 26
    ensures IsUpper(c) && (c as int) == ('A' as int) + i
  {
    (('A' as int) + i) as char
  }

  /** The id built from letters number a and b and the number n. */
  function KeyId(a: nat, b: nat, n: nat): (id: string)
    requires a < 26 && b < 26 && n <= 9999
    ensures |id| >= 2 && id[0] == Letter(a) && id[1] == Letter(b) && id[2..] == Pad4(n)
  {
    [Letter(a), Letter(b)] + Pad4(n)
  }

  lemma KeyIdShape(a: nat, b: nat, n: nat)
    requires a < 26 && b < 26 && n <= 9999
    ensures IsIdShape(KeyId(a, b, n))
    ensures KeyId(a, b, n)[0] == Letter(a) && KeyId(a, b, n)[1] == Letter(b)
    ensures ParseDigits(KeyId(a, b, n)[2..]) == n
  {
    Pad4RoundTrip(n);
    assert KeyId(a, b, n)[2..] == Pad4(n);
  }

  /** The ids with letters a, b and a number below count. */
  ghost function Block(a: nat, b: nat, count: nat): set<string>
    requires a < 26 && b < 26 && count <= 10000
  {
    set n: nat | n < count :: KeyId(a, b, n)
  }

  /** The ids with first letter a, second letter among the first count, any number. */
  ghost function Row(a: nat, count: nat): set<string>
    requires a < 26 && count <= 26
  {
    set b: nat, n: nat | b < count && n < 10000 :: KeyId(a, b, n)
  }

  /** The ids whose first letter is among the first count letters. */
  ghost function Space(count: nat): set<string>
    requires count <= 26
  {
    set a: nat, b: nat, n: nat | a < count && b < 26 && n < 10000 :: KeyId(a, b, n)
  }

  lemma {:induction false} BlockCardinality(a: nat, b: nat, count: nat)
    requires a < 26 && b < 26 && count <= 10000
    ensures |Block(a, b, count)| == count
  {
    if count > 0 {
      var previous := Block(a, b, count - 1);
      var s := KeyId(a, b, count - 1);
      BlockSplit(a, b, count);
      forall t | t in previous ensures t != s {
        var n: nat :| n < count - 1 && t == KeyId(a, b, n);
        if t == s {
          Pad4Injective(n, count - 1);
        }
      }
      assert previous !! {s};
      DisjointUnionCardinality(previous, {s});
      BlockCardinality(a, b, count - 1);
    }
  }

  lemma {:induction false} RowCardinality(a: nat, count: nat)
    requires a < 26 && count <= 26
    ensures |Row(a, count)| == count * 10000
  {
    if count > 0 {
      var previous := Row(a, count - 1);
      var block := Block(a, count - 1, 10000);
      assert Row(a, count) == previous + block;
      forall t | t in previous ensures t[1] != Letter(count - 1) {
        var b: nat, n: nat :| b < count - 1 && n < 10000 && t == KeyId(a, b, n);
      }
      assert previous !! block;
      DisjointUnionCardinality(previous, block);
      BlockCardinality(a, count - 1, 10000);
      RowCardinality(a, count - 1);
    }
  }

  lemma {:induction false} SpaceCardinality(count: nat)
    requires count <= 26
    ensures |Space(count)| == count * 260000
  {
    if count > 0 {
      var previous := Space(count - 1);
      var row := Row(count - 1, 26);
      SpaceSplit(count);
      SpaceDisjointRow(count);
      DisjointUnionCardinality(previous, row);
      RowCardinality(count - 1, 26);
      SpaceCardinality(count - 1);
    }
  }

  /** The ids whose first letter comes before letter count - 1 do not start with it. */
  lemma SpaceDisjointRow(count: nat)
    requires 0 < count <= 26
    ensures Space(count - 1) !! Row(count - 1, 26)
  {
    forall t | t in Space(count - 1) ensures t[0] != Letter(count - 1) {
      var a: nat, b: nat, n: nat :| a < count - 1 && b < 26 && n < 10000 && t == KeyId(a, b, n);
    }
    forall t | t in Row(count - 1, 26) ensures t[0] == Letter(count - 1) {
      var b: nat, n: nat :| b < 26 && n < 10000 && t == KeyId(count - 1, b, n);
    }
  }

  lemma BlockSplit(a: nat, b: nat, count: nat)
    requires a < 26 && b < 26 && 0 < count <= 10000
    ensures Block(a, b, count) == Block(a, b, count - 1) + {KeyId(a, b, count - 1)}
  {
    forall t | t in Block(a, b, count) ensures t in Block(a, b, count - 1) + {KeyId(a, b, count - 1)} {
      var n: nat :| n < count && t == KeyId(a, b, n);
      if n < count - 1 {
        assert t in Block(a, b, count - 1);
      }
    }
  }

  lemma SpaceSplit(count: nat)
    requires 0 < count <= 26
    ensures Space(count) == Space(count - 1) + Row(count - 1, 26)
  {
    forall t | t in Space(count) ensures t in Space(count - 1) + Row(count - 1, 26) {
      var a: nat, b: nat, n: nat :| a < count && b < 26 && n < 10000 && t == KeyId(a, b, n);
      if a < count - 1 {
        assert t in Space(count - 1);
      } else {
        assert t in Row(count - 1, 26);
      }
    }
  }

  lemma DisjointUnionCardinality<T>(a: set<T>, b: set<T>)
    requires a !! b
    ensures |a + b| == |a| + |b|
  {
    assert (a + b) - a == b;
  }

  lemma DifferenceCardinality<T>(a: set<T>, b: set<T>)
    ensures |a - b| >= |a| - |b|
  {
    var both := a * b;
    assert a == (a - b) + both;
    DisjointUnionCardinality(a - b, both);
    assert b == both + (b - a);
    DisjointUnionCardinality(both, b - a);
  }

  /**
   * While fewer than 26 * 26 * 10000 ids are taken, some id of the shape
   * ^[A-Z]{2}[0-9]{4}$ is free. The loop itself has no bound: it only stops
   * once the random draws reach such an id.
   */
  lemma FreeIdExists(taken: set<string>)
    requires |taken| < 26 * 26 * 10000
    ensures exists s :: IsIdShape(s) && s !in taken
    ensures exists d :: WellFormedDraw(d) && IsIdShape(CandidateId(d)) && CandidateId(d) !in taken
  {
    var space := Space(26);
    SpaceCardinality(26);
    DifferenceCardinality(space, taken);
    var s :| s in space - taken;
    var a: nat, b: nat, n: nat :| a < 26 && b < 26 && n < 10000 && s == KeyId(a, b, n);
    KeyIdShape(a, b, n);
    LetterDraw(a, b, n);
  }

  /** Drawing letters a and b and the number n builds exactly KeyId(a, b, n). */
  lemma LetterDraw(a: nat, b: nat, n: nat)
    requires a < 26 && b < 26 && n <= 9999
    ensures WellFormedDraw(Draw([Letter(a), Letter(b)], n))
    ensures CandidateId(Draw([Letter(a), Letter(b)], n)) == KeyId(a, b, n)
  {
    var d := Draw([Letter(a), Letter(b)], n);
    assert UpperString(d.random) == d.random;
  }

  /** The keyspace is exactly the strings of the id shape, so it counts all of them. */
  lemma IdShapeSpace(s: string)
    ensures IsIdShape(s) <==> s in Space(26)
  {
    if IsIdShape(s) {
      var a: nat, b: nat := (s[0] as int) - ('A' as int), (s[1] as int) - ('A' as int);
      Pad4OfDigits(s[2..]);
      var n := ParseDigits(s[2..]);
      assert s == [s[0], s[1]] + s[2..];
      assert KeyId(a, b, n) == s;
    }
    if s in Space(26) {
      var a: nat, b: nat, n: nat :| a < 26 && b < 26 && n < 10000 && s == KeyId(a, b, n);
      KeyIdShape(a, b, n);
    }
  }
}
