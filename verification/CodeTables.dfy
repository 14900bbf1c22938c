/** The tables from lengths and distances to codes that are filled in once. */
module CodeTables {
  import opened Bits
  import opened Rfc1951
  import opened PrefixCodes
  import opened TokenCodes

  /** Extra bits of the length codes, the distance codes and the code length codes. */
  const EXTRA_LBITS: seq<nat> :=
    [0, 0, 0, 0, 0, 0, 0, 0, 1, 1, 1, 1, 2, 2, 2, 2, 3, 3, 3, 3, 4, 4, 4, 4, 5, 5, 5, 5, 0]

  const EXTRA_DBITS: seq<nat> :=
    [0, 0, 0, 0, 1, 1, 2, 2, 3, 3, 4, 4, 5, 5, 6, 6, 7, 7, 8, 8, 9, 9, 10, 10, 11, 11, 12, 12, 13, 13]

  const EXTRA_BLBITS: seq<nat> := [0, 0, 0, 0, 0, 0, 0, 0, 0, 0, 0, 0, 0, 0, 0, 0, 2, 3, 7]

  lemma ExtraTables()
    ensures EXTRA_LBITS == LENGTH_EXTRA && EXTRA_DBITS == DISTANCE_EXTRA
    ensures |LENGTH_BASE| == |EXTRA_LBITS| == 29 && |DISTANCE_BASE| == |EXTRA_DBITS| == 30
  {
  }

  // ---------- Which code is right ----------

  function LengthEnd(c: nat): nat
    requires c < 28
  {
    if c == 27 then 259 else LENGTH_BASE[c + 1]
  }

  lemma {:induction false} LengthBasesGrow(c: nat, d: nat)
    requires c < d < 28
    ensures LENGTH_BASE[c] < LENGTH_BASE[d] && LengthEnd(c) <= LENGTH_BASE[d]
  {
    if c + 1 < d {
      LengthBasesGrow(c, d - 1);
    }
  }

  lemma {:induction false} LengthCodeIs(length: nat, c: nat, top: nat)
    requires 3 <= length && c <= top < 28 && LENGTH_BASE[c] <= length < LengthEnd(c)
    ensures LengthCodeUpTo(length, top) == c
    decreases top
  {
    if c < top {
      LengthBasesGrow(c, top);
      LengthCodeIs(length, c, top - 1);
    }
  }

  function DistanceEnd(c: nat): nat
    requires c < 30
  {
    if c == 29 then 32769 else DISTANCE_BASE[c + 1]
  }

  lemma {:induction false} DistanceBasesGrow(c: nat, d: nat)
    requires c < d < 30
    ensures DISTANCE_BASE[c] < DISTANCE_BASE[d] && DistanceEnd(c) <= DISTANCE_BASE[d]
  {
    if c + 1 < d {
      DistanceBasesGrow(c, d - 1);
    }
  }

  lemma {:induction false} DistanceCodeIs(distance: nat, c: nat, top: nat)
    requires 1 <= distance && c <= top < 30 && DISTANCE_BASE[c] <= distance < DistanceEnd(c)
    ensures DistanceCodeUpTo(distance, top) == c
    decreases top
  {
    if c < top {
      DistanceBasesGrow(c, top);
      DistanceCodeIs(distance, c, top - 1);
    }
  }

  // ---------- Length codes ----------

  /** The entries before `n` hold the codes below 28 of their lengths. */
  ghost predicate LengthsFilled(t: seq<nat>, n: nat)
  {
    n <= 256 == |t| && forall i :: 0 <= i < n ==> t[i] < 28 && LENGTH_BASE[t[i]] <= i + 3 < LengthEnd(t[i])
  }

  /** What the base of a code is good for: codes without extra bits do not need one. */
  ghost predicate LengthBases(t: seq<nat>, n: nat)
  {
    n <= 28 && |t| == 29 && forall c :: 0 <= c < n ==> t[c] + 3 == LENGTH_BASE[c]
  }

  ghost predicate LengthTables(codes: seq<nat>, bases: seq<nat>)
  {
    && |codes| == 256 && |bases| == 29
    && (forall l {:trigger LengthCode(l)} :: 3 <= l <= 258 ==> codes[l - 3] == LengthCode(l))
    && LengthBases(bases, 28)
  }

  method FillLength(lengthCode: array<nat>, code: nat, start: nat) returns (length: nat)
    requires code < 28 && lengthCode.Length == 256 && start + 3 == LENGTH_BASE[code]
    requires LengthsFilled(lengthCode[..], start)
    modifies lengthCode
    ensures length + 3 == LengthEnd(code) && LengthsFilled(lengthCode[..], length)
  {
    hide LENGTH_BASE, LengthEnd, LENGTH_EXTRA, EXTRA_LBITS;
    ghost var end := LengthStep(code);
    length := start;
    var n := 0;
    while n < Shl(1, EXTRA_LBITS[code])
      invariant 0 <= n <= Shl(1, EXTRA_LBITS[code]) && length == start + n
      invariant LengthsFilled(lengthCode[..], length)
    {
      lengthCode[length] := code;
      length := length + 1;
      n := n + 1;
    }
  }

  lemma LengthStep(code: nat) returns (end: nat)
    requires code < 28
    ensures |EXTRA_LBITS| == |LENGTH_BASE| == 29
    ensures end == LengthEnd(code) == LENGTH_BASE[code] + Shl(1, EXTRA_LBITS[code]) && end <= 259 && LENGTH_BASE[code] >= 3
  {
    hide Pow2;
    LengthTable(code);
    ShlOne(EXTRA_LBITS[code]);
    end := LengthEnd(code);
  }

  method InitLengths() returns (lengthCode: array<nat>, baseLength: array<nat>)
    ensures fresh(lengthCode) && fresh(baseLength) && LengthTables(lengthCode[..], baseLength[..])
  {
    hide LengthEnd, LENGTH_BASE, LengthsFilled;
    lengthCode, baseLength := new nat[256](_ => 0), new nat[29](_ => 0);
    var length, code := 0, 0;
    FirstLength(lengthCode[..]);
    while code < 28
      invariant 0 <= code <= 28 && |LENGTH_BASE| == 29
      invariant length + 3 == if code == 28 then 259 else LENGTH_BASE[code]
      invariant LengthsFilled(lengthCode[..], length) && LengthBases(baseLength[..], code)
    {
      baseLength[code] := length;
      length := FillLength(lengthCode, code, length);
      LengthEndIs(code);
      code := code + 1;
    }
    ghost var filled := lengthCode[..];
    lengthCode[length - 1] := code;
    LengthsRight(filled, lengthCode[..]);
  }

  lemma FirstLength(t: seq<nat>)
    requires |t| == 256
    ensures LengthsFilled(t, 0) && |LENGTH_BASE| == 29 && LENGTH_BASE[0] == 3
  {
  }

  lemma LengthEndIs(code: nat)
    requires code < 28
    ensures |LENGTH_BASE| == 29 && LengthEnd(code) == if code == 27 then 259 else LENGTH_BASE[code + 1]
  {
  }

  /** Length 258 has two representations, and gets the better one. */
  lemma LengthsRight(filled: seq<nat>, codes: seq<nat>)
    requires LengthsFilled(filled, 256) && codes == filled[255 := 28]
    ensures forall l {:trigger LengthCode(l)} :: 3 <= l <= 258 ==> codes[l - 3] == LengthCode(l)
  {
    hide LENGTH_BASE, LengthEnd;
    forall l {:trigger LengthCode(l)} | 3 <= l <= 258
      ensures codes[l - 3] == LengthCode(l)
    {
      if l < 258 {
        LengthCodeIs(l, filled[l - 3], 27);
      }
    }
  }

  // ---------- Distance codes ----------

  /** The distances below `n` (less one) have their codes in the first half of the table. */
  ghost predicate NearFilled(t: seq<nat>, n: nat)
  {
    n <= 256 && |t| == 512 && forall i :: 0 <= i < n ==> t[i] < 16 && DISTANCE_BASE[t[i]] <= i + 1 < DistanceEnd(t[i])
  }

  /** The other distances have theirs in the second half, one entry for 128 distances. */
  ghost predicate FarFilled(t: seq<nat>, n: nat)
  {
    && 2 <= n <= 256 && |t| == 512
    && (forall j :: 258 <= j < 256 + n ==>
          t[j] < 30 && DISTANCE_BASE[t[j]] <= 128 * (j - 256) + 1 && 128 * (j - 256) + 128 < DistanceEnd(t[j]))
  }

  ghost predicate DistanceBases(t: seq<nat>, n: nat)
  {
    n <= 30 == |t| && forall c :: 0 <= c < n ==> t[c] + 1 == DISTANCE_BASE[c]
  }

  /** The code of a distance less one. */
  function DCode(t: seq<nat>, dist: nat): nat
    requires |t| == 512 && dist < 32768
  {
    if dist < 256 then t[dist] else t[256 + dist / 128]
  }

  ghost predicate DistanceTables(codes: seq<nat>, bases: seq<nat>)
  {
    && |codes| == 512 && DistanceBases(bases, 30)
    && (forall d {:trigger DistanceCode(d)} :: 1 <= d <= 32768 ==> DCode(codes, d - 1) == DistanceCode(d))
  }

  method FillNear(distCode: array<nat>, code: nat, start: nat) returns (dist: nat)
    requires code < 16 && distCode.Length == 512 && start + 1 == DISTANCE_BASE[code]
    requires NearFilled(distCode[..], start)
    modifies distCode
    ensures dist + 1 == DistanceEnd(code) && NearFilled(distCode[..], dist)
  {
    hide DISTANCE_BASE, DistanceEnd, EXTRA_DBITS;
    ghost var end := DistanceStep(code);
    dist := start;
    var n := 0;
    while n < Shl(1, EXTRA_DBITS[code])
      invariant 0 <= n <= Shl(1, EXTRA_DBITS[code]) && dist == start + n
      invariant NearFilled(distCode[..], dist)
    {
      distCode[dist] := code;
      dist := dist + 1;
      n := n + 1;
    }
  }

  lemma DistanceStep(code: nat) returns (end: nat)
    requires code < 30
    ensures |EXTRA_DBITS| == |DISTANCE_BASE| == 30
    ensures end == DistanceEnd(code) == DISTANCE_BASE[code] + Shl(1, EXTRA_DBITS[code])
    ensures DISTANCE_BASE[code] >= 1 && end <= 32769 && (code < 16 ==> end <= 257)
  {
    hide Pow2;
    DistanceTable(code);
    ShlOne(EXTRA_DBITS[code]);
    end := DistanceEnd(code);
  }

  lemma FarStep(code: nat) returns (end: nat)
    requires 16 <= code < 30
    ensures |EXTRA_DBITS| == |DISTANCE_BASE| == 30 && EXTRA_DBITS[code] >= 7
    ensures end == DistanceEnd(code) == DISTANCE_BASE[code] + 128 * Shl(1, EXTRA_DBITS[code] - 7) && end <= 32769
  {
    hide DISTANCE_BASE, EXTRA_DBITS, DistanceEnd, Shl;
    end := DistanceStep(code);
    ManyExtraBits(code);
    Shl128(EXTRA_DBITS[code] - 7);
  }

  lemma ManyExtraBits(code: nat)
    requires 16 <= code < 30
    ensures |EXTRA_DBITS| == 30 && EXTRA_DBITS[code] >= 7
  {
  }

  lemma Shl128(k: nat)
    ensures Shl(1, k + 7) == 128 * Shl(1, k)
  {
    assert Shl(1, k + 7) == 2 * Shl(1, k + 6);
    assert Shl(1, k + 6) == 2 * Shl(1, k + 5);
    assert Shl(1, k + 5) == 2 * Shl(1, k + 4);
    assert Shl(1, k + 4) == 2 * Shl(1, k + 3);
    assert Shl(1, k + 3) == 2 * Shl(1, k + 2);
    assert Shl(1, k + 2) == 2 * Shl(1, k + 1);
  }

  method FillFar(distCode: array<nat>, code: nat, start: nat) returns (dist: nat)
    requires 16 <= code < 30 && distCode.Length == 512 && 128 * start + 1 == DISTANCE_BASE[code]
    requires NearFilled(distCode[..], 256) && FarFilled(distCode[..], start)
    modifies distCode
    ensures 128 * dist + 1 == DistanceEnd(code)
    ensures NearFilled(distCode[..], 256) && FarFilled(distCode[..], dist)
  {
    hide DISTANCE_BASE, DistanceEnd, EXTRA_DBITS;
    ghost var end := FarStep(code);
    dist := start;
    var n := 0;
    while n < Shl(1, EXTRA_DBITS[code] - 7)
      invariant 0 <= n <= Shl(1, EXTRA_DBITS[code] - 7) && dist == start + n
      invariant NearFilled(distCode[..], 256) && FarFilled(distCode[..], dist)
    {
      distCode[256 + dist] := code;
      dist := dist + 1;
      n := n + 1;
    }
  }

  lemma DistanceEndIs(code: nat)
    requires code < 30
    ensures |DISTANCE_BASE| == 30 && DistanceEnd(code) == if code == 29 then 32769 else DISTANCE_BASE[code + 1]
    ensures code == 15 ==> DistanceEnd(code) == 257
  {
  }

  method InitDistances() returns (distCode: array<nat>, baseDist: array<nat>)
    ensures fresh(distCode) && fresh(baseDist) && DistanceTables(distCode[..], baseDist[..])
  {
    hide DISTANCE_BASE, DistanceEnd, NearFilled, FarFilled;
    distCode, baseDist := new nat[512](_ => 0), new nat[30](_ => 0);
    var dist, code := 0, 0;
    FirstDistance(distCode[..]);
    while code < 16
      invariant 0 <= code <= 16 && |DISTANCE_BASE| == 30 && dist + 1 == DISTANCE_BASE[code]
      invariant code == 16 ==> dist == 256
      invariant NearFilled(distCode[..], dist) && DistanceBases(baseDist[..], code)
    {
      baseDist[code] := dist;
      dist := FillNear(distCode, code, dist);
      DistanceEndIs(code);
      code := code + 1;
    }
    dist := dist / 128;
    FirstFar(distCode[..]);
    while code < 30
      invariant 16 <= code <= 30 && |DISTANCE_BASE| == 30
      invariant 128 * dist + 1 == if code == 30 then 32769 else DISTANCE_BASE[code]
      invariant NearFilled(distCode[..], 256) && FarFilled(distCode[..], dist) && DistanceBases(baseDist[..], code)
    {
      baseDist[code] := dist * 128;
      dist := FillFar(distCode, code, dist);
      DistanceEndIs(code);
      code := code + 1;
    }
    DistancesRight(distCode[..]);
  }

  lemma FirstDistance(t: seq<nat>)
    requires |t| == 512
    ensures NearFilled(t, 0) && |DISTANCE_BASE| == 30 && DISTANCE_BASE[0] == 1
  {
  }

  lemma FirstFar(t: seq<nat>)
    requires |t| == 512
    ensures FarFilled(t, 2)
  {
  }

  lemma DistancesRight(codes: seq<nat>)
    requires NearFilled(codes, 256) && FarFilled(codes, 256)
    ensures forall d {:trigger DistanceCode(d)} :: 1 <= d <= 32768 ==> DCode(codes, d - 1) == DistanceCode(d)
  {
    hide DISTANCE_BASE, DistanceEnd;
    forall d {:trigger DistanceCode(d)} | 1 <= d <= 32768
      ensures DCode(codes, d - 1) == DistanceCode(d)
    {
      if d > 256 {
        var i := (d - 1) / 128;
        assert 2 <= i < 256 && 128 * i + 1 <= d < 128 * i + 129;
        DistanceCodeIs(d, codes[256 + i], 29);
      } else {
        DistanceCodeIs(d, codes[d - 1], 29);
      }
    }
  }
}
