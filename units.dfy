/** `format_bytes` of `ModernSystemMonitor` (pcmonitor.py): the unit a byte
    count is shown in and the number shown with it. The text formatting
    (`f"{bytes:.1f} {unit}"`) is not part of this model. */
module Units {

  datatype ByteUnit = B | KB | MB | GB | TB

  /** The units in the order `format_bytes` tries them; TB is the last resort. */
  function UnitAt(k: nat): ByteUnit
    requires k <= 4
  {
    [B, KB, MB, GB, TB][k]
  }

  function Pow1024(k: nat): (p: nat)
    ensures p >= 1
  {
    if k == 0 then 1 else 1024 * Pow1024(k - 1)
  }

  /** `bytes` after `k` of the loop's in-place divisions by 1024. */
  function Scaled(bytes: real, k: nat): real
  {
    if k == 0 then bytes else Scaled(bytes, k - 1) / 1024.0
  }

  /** The first unit index, from `k` on, whose scaled value is below 1024,
      and 4 (TB) when none of B, KB, MB, GB qualifies. */
  function FirstBelow(bytes: real, k: nat): (r: nat)
    requires k <= 4
    ensures k <= r <= 4
    ensures r < 4 ==> Scaled(bytes, r) < 1024.0
    ensures forall j :: k <= j < r ==> Scaled(bytes, j) >= 1024.0
    decreases 4 - k
  {
    if k == 4 then 4
    else if Scaled(bytes, k) < 1024.0 then k
    else FirstBelow(bytes, k + 1)
  }

  /** The index of the unit `format_bytes` reports `bytes` in. */
  function ChosenIndex(bytes: real): (k: nat)
    ensures k <= 4
  {
    FirstBelow(bytes, 0)
  }

  /** `format_bytes` as the source runs it: try B, KB, MB and GB in turn,
      stop at the first whose value is below 1024, dividing by 1024 before
      each next try; TB takes whatever is left. */
  method FormatBytes(bytes: real) returns (value: real, unit: ByteUnit)
    ensures unit == UnitAt(ChosenIndex(bytes)) && value == Scaled(bytes, ChosenIndex(bytes))
  {
    var units := [B, KB, MB, GB];
    var b := bytes;
    var k := 0;
    while k < |units|
      invariant 0 <= k <= |units|
      invariant b == Scaled(bytes, k)
      invariant forall j :: 0 <= j < k ==> Scaled(bytes, j) >= 1024.0
    {
      if b < 1024.0 {
        return b, units[k];
      }
      b := b / 1024.0;
      k := k + 1;
    }
    return b, TB;
  }

  /** The loop's repeated division is one division by 1024^k. */
  lemma {:induction false} ScaledIsDivision(bytes: real, k: nat)
    ensures Scaled(bytes, k) == bytes / Pow1024(k) as real
  {
    if k > 0 {
      ScaledIsDivision(bytes, k - 1);
      var p := Pow1024(k - 1) as real;
      assert Pow1024(k) as real == p * 1024.0;
      assert bytes / p / 1024.0 == bytes / (p * 1024.0);
    }
  }

  /** The chosen unit is the first of B, KB, MB, GB whose value is below
      1024, and TB exactly when none of them is: any index that fits and has
      only misses before it is the chosen one. */
  lemma ChosenUnitIsFirstFit(bytes: real, k: nat)
    requires k <= 4
    requires k == 4 || Scaled(bytes, k) < 1024.0
    requires forall j :: 0 <= j < k ==> Scaled(bytes, j) >= 1024.0
    ensures ChosenIndex(bytes) == k
  {
  }

  /** For a non-negative count the value shown is below 1024 unless the unit
      is TB, and at least 1 unless the unit is B. */
  lemma ValueRange(bytes: real)
    requires bytes >= 0.0
    ensures ChosenIndex(bytes) < 4 ==> Scaled(bytes, ChosenIndex(bytes)) < 1024.0
    ensures ChosenIndex(bytes) > 0 ==> Scaled(bytes, ChosenIndex(bytes)) >= 1.0
  {
    var k := ChosenIndex(bytes);
    if k > 0 {
      assert Scaled(bytes, k - 1) >= 1024.0;
    }
  }

  /** Scaling keeps the order of two counts. */
  lemma {:induction false} ScaledMonotonic(a: real, b: real, k: nat)
    requires a <= b
    ensures Scaled(a, k) <= Scaled(b, k)
  {
    if k > 0 {
      ScaledMonotonic(a, b, k - 1);
    }
  }

  /** A larger count is never shown in a smaller unit. */
  lemma ChosenIndexMonotonic(a: real, b: real)
    requires a <= b
    ensures ChosenIndex(a) <= ChosenIndex(b)
  {
    var ka, kb := ChosenIndex(a), ChosenIndex(b);
    if kb < ka {
      ScaledMonotonic(a, b, kb);
    }
  }
}
