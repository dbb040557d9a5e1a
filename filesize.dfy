/**
 * `format_filesize`: the unit a byte count is shown in. Dividing by 1024
 * is exact, so the amount is kept as an exact real; its rendering with two
 * decimals is not part of this model.
 */
module FileSize {
  import opened Wrappers

  const Units: seq<string> := ["B", "KB", "MB", "GB", "TB"]

  /** 1024 to the power k. */
  function Scale(k: nat): (r: real)
    ensures r >= 1.0
  {
    if k == 0 then 1.0 else 1024.0 * Scale(k - 1)
  }

  /** An amount and the unit it is expressed in. */
  datatype Scaled = Scaled(amount: real, unit: string)

  lemma DivideAgain(x: real, d: real)
    requires d >= 1.0
    ensures x / d / 1024.0 == x / (1024.0 * d)
    ensures x / d < 1024.0 <==> x < 1024.0 * d
  {
  }

  /**
   * The first unit, in the order B, KB, MB, GB, TB, in which the amount is
   * below 1024; from 1024^5 bytes on there is none and the function returns
   * `None`. Negative counts are shown in bytes.
   */
  method FormatFilesize(size: int) returns (r: Option<Scaled>)
    ensures r.None? <==> size as real >= Scale(5)
    ensures r.Some? ==> r.value.amount < 1024.0
    ensures forall k :: 0 <= k < |Units| ==>
      (r.Some? && r.value.unit == Units[k] <==> (k == 0 || Scale(k) <= size as real) && size as real < Scale(k + 1))
    ensures forall k :: 0 <= k < |Units| && r.Some? && r.value.unit == Units[k] ==>
      r.value.amount == size as real / Scale(k)
  {
    var filesize := size as real;
    for k := 0 to |Units|
      invariant filesize == size as real / Scale(k)
      invariant k > 0 ==> Scale(k) <= size as real
    {
      DivideAgain(size as real, Scale(k));
      if filesize < 1024.0 {
        return Some(Scaled(filesize, Units[k]));
      }
      filesize := filesize / 1024.0;
    }
    return None;
  }
}
