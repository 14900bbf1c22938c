/** Searches at the end of the window, where the debug assertion of `longest_match` fails. */
module WindowEnds {
  import opened Bits
  import opened HashChains
  import opened LongestMatches
  import opened Repetitions
  import opened Deflating
  import opened Gzip

  /** The assertion fails in a run exactly if the end of the input was met by a refill that did not slide the window, and a
      string beyond the bound was searched for. */
  lemma AssertionFailsIff(last: Place, input: seq<byte>)
    requires Finished(last, input)
    ensures last.outside <==> last.noticed < WSIZE + MAX_DIST && Beyond(last.searches, last.base)
  {
    hide Straight, FreshUpTo;
    if Beyond(last.searches, last.base) {
      var i :| 0 <= i < |last.searches| && last.searches[i] > last.base + BOUND;
      assert last.searches[i] < |last.text|;
    }
  }

  /** So it never fails unless so many bytes are left over from whole halves of the window. */
  lemma FailsOnlyForLengths(last: Place, input: seq<byte>)
    requires Finished(last, input) && last.outside
    ensures |last.text| > WSIZE && MAX_DIST + 1 < |last.text| % WSIZE <= WSIZE - 2
  {
    hide Straight, FreshUpTo;
    var i :| 0 <= i < |last.searches| && last.searches[i] > last.base + BOUND;
    var k, size := last.base / WSIZE, |last.text|;
    assert last.searches[i] < size && last.base == WSIZE * k;
    assert WSIZE * (k + 1) == WSIZE * k + WSIZE;
    Quotient(size, WSIZE, k + 1, size - WSIZE * (k + 1));
  }

  /** It fails for every text that fits the window and first repeats three bytes, not too far away, beyond the bound. */
  lemma LateRepetitionFails(last: Place, input: seq<byte>, q: nat)
    requires Finished(last, input) && !last.failed && last.text == input && |input| <= WINDOW_SIZE - 2
    requires q > BOUND && FreshUpTo(input, q) && RepeatedNear(input, q)
    ensures last.outside
  {
    hide FreshUpTo, RepeatedNear;
    NearFits(input, q);
    LessFresh(input, BOUND + 1, q);
    var i :| 0 <= i < |last.searches| && last.searches[i] == q;
  }

  // ---------- Such a text ----------

  const LATE: nat := 65276
  const EARLY: nat := 51600

  function High(k: nat): nat { k / 256 }

  function Low(k: nat): nat { k % 256 }

  /** The numbers from 0 on, in two bytes each. */
  function Counting(i: nat): nat
  {
    if i % 2 == 0 then High(i / 2) else Low(i / 2)
  }

  function LateByte(i: nat): (b: nat)
    requires i < WINDOW_SIZE - 2
    ensures b < 256
  {
    Counting(if i < LATE then i else i - (LATE - EARLY))
  }

  /** Numbers that begin again at `EARLY` when they come to `LATE`. */
  function LateText(): (s: seq<byte>)
    ensures |s| == WINDOW_SIZE - 2
  {
    seq(WINDOW_SIZE - 2, i requires 0 <= i < WINDOW_SIZE - 2 => LateByte(i))
  }

  lemma NextNumber(k: nat)
    ensures High(k + 1) == High(k) + (if Low(k) == 255 then 1 else 0) && Low(k + 1) == (if Low(k) == 255 then 0 else Low(k) + 1)
  {
  }

  lemma SameNumber(k: nat, j: nat)
    requires High(k) == High(j) && Low(k) == Low(j)
    ensures k == j
  {
  }

  /** Three bytes of the counting text, beginning with a number or in one. */
  lemma Three(i: nat)
    requires i < LATE - 2
    ensures var k := i / 2;
      if i % 2 == 0 then Counting(i) == High(k) && Counting(i + 1) == Low(k) && Counting(i + 2) == High(k + 1)
      else Counting(i) == Low(k) && Counting(i + 1) == High(k + 1) && Counting(i + 2) == Low(k + 1)
  {
  }

  lemma SmallNumbers(k: nat)
    requires k < 32768
    ensures High(k) <= 127 && Low(k) <= 255
  {
  }

  /** No three bytes of the counting text occur twice. */
  lemma CountingIsFresh(i: nat, q: nat)
    requires i < q < LATE - 2
    ensures !(Counting(i) == Counting(q) && Counting(i + 1) == Counting(q + 1) && Counting(i + 2) == Counting(q + 2))
  {
    hide Counting, High, Low;
    Three(i);
    Three(q);
    var k, j := i / 2, q / 2;
    NextNumber(k);
    NextNumber(j);
    SmallNumbers(k);
    SmallNumbers(k + 1);
    SmallNumbers(j);
    SmallNumbers(j + 1);
    if High(k) == High(j) && Low(k) == Low(j) {
      SameNumber(k, j);
    }
    if High(k + 1) == High(j + 1) && Low(k + 1) == Low(j + 1) {
      SameNumber(k + 1, j + 1);
    }
  }

  lemma LateAt(i: nat)
    requires i < WINDOW_SIZE - 2
    ensures LateText()[i] == Counting(if i < LATE then i else i - (LATE - EARLY))
  {
  }

  lemma LateIsFresh(q: nat)
    requires q < LATE
    ensures !Repeated(LateText(), q)
  {
    if Repeated(LateText(), q) {
      var i: nat :| SameThree(LateText(), i, q);
      NoEarlier(i, q);
    }
  }

  lemma NoEarlier(i: nat, q: nat)
    requires i < q < LATE
    ensures !SameThree(LateText(), i, q)
  {
    hide LateText, Counting, High, Low;
    LateAt(i);
    LateAt(i + 1);
    LateAt(i + 2);
    LateAt(q);
    LateAt(q + 1);
    LateAt(q + 2);
    if q < LATE - 2 {
      CountingIsFresh(i, q);
    } else {
      Before(i, q);
    }
  }

  /** The bytes around the turn. */
  lemma Turn()
    ensures var s := LateText(); s[LATE - 2] == 127 && s[LATE - 1] == 125 && s[LATE] == 100 && s[LATE + 1] == 200
  {
    hide LateText;
    LateAt(LATE - 2);
    LateAt(LATE - 1);
    LateAt(LATE);
    LateAt(LATE + 1);
  }

  /** No three bytes of the counting text are those across the turn. */
  lemma OtherThree(i: nat)
    requires i < LATE - 2
    ensures !(Counting(i) == 127 && Counting(i + 1) == 125 && Counting(i + 2) == 100)
    ensures !(Counting(i) == 125 && Counting(i + 1) == 100 && Counting(i + 2) == 200)
  {
    hide Counting, High, Low;
    Three(i);
    NextNumber(i / 2);
    SmallNumbers(i / 2);
    SmallNumbers(i / 2 + 1);
  }

  /** Across the turn nothing is repeated either. */
  lemma Before(i: nat, q: nat)
    requires i < q && LATE - 2 <= q < LATE
    ensures !SameThree(LateText(), i, q)
  {
    hide LateText, Counting;
    Turn();
    if i < LATE - 2 {
      LateAt(i);
      LateAt(i + 1);
      LateAt(i + 2);
      OtherThree(i);
    }
  }

  lemma LateRepeats()
    ensures RepeatedNear(LateText(), LATE)
  {
    hide LateText, Counting;
    LateAt(EARLY);
    LateAt(EARLY + 1);
    LateAt(EARLY + 2);
    LateAt(LATE);
    LateAt(LATE + 1);
    LateAt(LATE + 2);
    assert SameThree(LateText(), EARLY, LATE);
  }

  /** A run in which the assertion fails, however the text arrives. */
  method AssertionFails(memory: Memory, timeStamp: nat, plan: seq<int>) returns (out: seq<byte>, ghost last: Place)
    requires forall i :: 0 <= i < |plan| ==> plan[i] >= 0
    ensures last.outside && last.text == LateText()
  {
    hide LateText, FreshUpTo, RepeatedNear, Repeated, Finished;
    var read;
    out, read, last := Zip(memory, timeStamp, LateText(), plan);
    assert LateText()[..read] == LateText();
    LateIsAllFresh();
    LateRepeats();
    LateRepetitionFails(last, LateText(), LATE);
  }

  lemma LateIsAllFresh()
    ensures FreshUpTo(LateText(), LATE)
  {
    hide LateText, Repeated;
    forall q: nat | q < LATE
      ensures !Repeated(LateText(), q)
    {
      LateIsFresh(q);
    }
  }
}
