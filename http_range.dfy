/**
 * The two HTTP header values the resumable download works with:
 * the `Range` request header it sends (an open-ended byte range,
 * section 14.2 of RFC 9110, with the `bytes=<first-pos>-` syntax of
 * section 14.1.2) and the total length it reads back from the
 * `Content-Range` response header (section 14.4 of RFC 9110,
 * `bytes <first>-<last>/<complete-length>`).
 */
module HttpRange {
  import opened Wrappers
  import opened Text

  /** `f'bytes={file_size}-'`: ask for everything from `offset` on. */
  function RangeHeader(offset: nat): string {
    "bytes=" + Decimal(offset) + "-"
  }

  /** Reads an open-ended byte range `bytes=<first-pos>-` back to its first position. */
  function ParseRange(header: string): (r: Option<nat>)
    ensures r.Some? ==> |header| > 7
  {
    if |header| >= 7 && header[..6] == "bytes=" && header[|header| - 1] == '-' then
      ParseNat(header[6..|header| - 1])
    else
      None
  }

  /** Every Range header sent is well formed and names exactly the offset it was built from. */
  lemma RangeRoundTrip(offset: nat)
    ensures ParseRange(RangeHeader(offset)) == Some(offset)
  {
    var h := RangeHeader(offset);
    assert h[6..|h| - 1] == Decimal(offset);
    DecimalRoundTrip(offset);
  }

  /** Two requests carry the same Range header exactly when they resume from the same offset. */
  lemma RangeHeaderInjective(m: nat, n: nat)
    ensures RangeHeader(m) == RangeHeader(n) <==> m == n
  {
    RangeRoundTrip(m);
    RangeRoundTrip(n);
  }

  /** The value used when the response has no `content-range`: it has no '/' at all. */
  function DefaultContentRange(fileSize: nat): string {
    "bytes " + Decimal(fileSize) + "-0"
  }

  /** A well-formed Content-Range value of section 14.4 of RFC 9110. */
  function ContentRange(first: nat, last: nat, complete: nat): string {
    "bytes " + Decimal(first) + "-" + Decimal(last) + "/" + Decimal(complete)
  }

  /** A Content-Range value whose complete length is unknown (`*`). */
  function ContentRangeUnknown(first: nat, last: nat): string {
    "bytes " + Decimal(first) + "-" + Decimal(last) + "/*"
  }

  /**
   * `int(headers.get('content-range', f'bytes {file_size}-0').split('/')[1])`:
   * `None` stands for the IndexError (no '/') or ValueError (not an integer)
   * that expression raises.
   */
  function TotalSize(contentRange: Option<string>, fileSize: nat): (r: Option<int>)
    ensures r.Some? ==> '/' in contentRange.GetOr(DefaultContentRange(fileSize))
  {
    var value := contentRange.GetOr(DefaultContentRange(fileSize));
    var parts := Split(value, '/');
    SplitSeparates(value, '/');
    if |parts| < 2 then None else ParseInt(parts[1])
  }

  /** Without a content-range header the total cannot be read: the default has no '/'. */
  lemma {:induction false} TotalSizeMissing(fileSize: nat)
    ensures TotalSize(None, fileSize) == None
  {
    var d := DefaultContentRange(fileSize);
    assert '/' !in d by {
      assert forall i :: 0 <= i < |Decimal(fileSize)| ==> IsDigit(Decimal(fileSize)[i]);
    }
    SplitUnique(d, '/', [d]);
  }

  /** A well-formed header yields its complete length, whatever the local file size. */
  lemma TotalSizeOf(first: nat, last: nat, complete: nat, fileSize: nat)
    ensures TotalSize(Some(ContentRange(first, last, complete)), fileSize) == Some(complete)
  {
    var head := "bytes " + Decimal(first) + "-" + Decimal(last);
    assert '/' !in head by {
      assert forall i :: 0 <= i < |Decimal(first)| ==> IsDigit(Decimal(first)[i]);
      assert forall i :: 0 <= i < |Decimal(last)| ==> IsDigit(Decimal(last)[i]);
    }
    var tail := Decimal(complete);
    assert ContentRange(first, last, complete) == head + ['/'] + tail;
    SplitAfter(head, '/', tail);
    assert '/' !in tail by {
      assert forall i :: 0 <= i < |tail| ==> IsDigit(tail[i]);
    }
    SplitUnique(tail, '/', [tail]);
    ParseIntDecimal(complete);
  }

  /** An unknown complete length (`*`) is not an integer, so the total cannot be read. */
  lemma TotalSizeUnknown(first: nat, last: nat, fileSize: nat)
    ensures TotalSize(Some(ContentRangeUnknown(first, last)), fileSize) == None
  {
    var head := "bytes " + Decimal(first) + "-" + Decimal(last);
    assert '/' !in head by {
      assert forall i :: 0 <= i < |Decimal(first)| ==> IsDigit(Decimal(first)[i]);
      assert forall i :: 0 <= i < |Decimal(last)| ==> IsDigit(Decimal(last)[i]);
    }
    assert ContentRangeUnknown(first, last) == head + ['/'] + "*";
    SplitAfter(head, '/', "*");
    SplitUnique("*", '/', ["*"]);
    assert Strip("*") == "*" by {
      assert !IsSpace('*');
    }
  }

  /**
   * The total is read with `int()` unstripped, so an information separator
   * next to it is refused even though `strip()` would remove it.
   */
  lemma TotalSizeRefusesSeparator(fileSize: nat)
    ensures TotalSize(Some("bytes 0-9/\U{1C}10"), fileSize) == None
  {
    var head := "bytes 0-9";
    var tail := "\U{1C}10";
    assert "bytes 0-9/\U{1C}10" == head + ['/'] + tail;
    SplitAfter(head, '/', tail);
    SplitUnique(tail, '/', [tail]);
    LeadingSeparatorRefused(tail);
  }
}
