/**
 * The list of streams offered to the user (`list_available_streams`) and
 * the user's pick from it (`get_user_choice`). A stream's label is its
 * resolution, " - ", and display text (sizes, container, bitrate) whose
 * rendering is an input here. The list is sorted by the number before the
 * first 'p' of each label; if any label has none, the whole list is
 * sorted by the fallback key instead, the stream's `rank`.
 */
module Catalog {
  import opened Wrappers
  import opened Text
  import opened Sorting

  /** A stream as the catalog library reports it. `rank` is its place in the fallback order. */
  datatype Stream = Stream(
    url: string,
    mimeType: string,
    resolution: Option<string>,
    filesize: Option<int>,
    abr: string,
    subtype: string,
    includesAudio: bool,
    rank: int)

  /** A `(stream_info, stream)` pair of the offered list. */
  datatype Entry = Entry(info: string, stream: Stream)

  /** `f"{resolution} - {…}"`: the resolution, then the rest of the display text. */
  function Label(resolution: string, details: string): string {
    resolution + (" - " + details)
  }

  /** `int(label.split('p')[0].strip())`; `None` stands for the ValueError. */
  function ResolutionKey(info: string): Option<int> {
    ParseInt(Strip(Split(info, 'p')[0]))
  }

  lemma {:induction false} BeforeAppend(a: string, b: string, sep: char)
    ensures sep in a ==> Before(a + b, sep) == Before(a, sep)
    ensures sep !in a ==> Before(a + b, sep) == a + Before(b, sep)
  {
    if a != [] {
      assert (a + b)[0] == a[0];
      if a[0] != sep {
        BeforeAppend(a[1..], b, sep);
        assert (a + b)[1..] == a[1..] + b;
      }
    } else {
      assert a + b == b;
    }
  }

  /** The sort key is the signed numeral the text before the first 'p' spells once stripped. */
  lemma KeyBeforeP(info: string)
    ensures ResolutionKey(info) == ParseSigned(Strip(Before(info, 'p')))
  {
    SplitFirst(info, 'p');
    ParseIntStripped(Before(info, 'p'));
  }

  /** No integer contains " - " (a sign must be followed by a digit). */
  lemma DashRejects(a: string, b: string)
    ensures ParseSigned(Strip(a + (" - " + b))) == None
  {
    var u := a + (" - " + b);
    var i := |a| + 1;
    assert u[i] == '-' && u[i + 1] == ' ';
    assert !IsSpace('-') && !IsDigit('-') && !IsDigit(' ');
    if LeadingSpaces(u) < i {
      ParseIntRejects(u, i);
    } else {
      StripKeeps(u, i);
      var t := Strip(u);
      assert t[0] == '-';
      if |t| >= 2 {
        assert t[1] == u[i + 1];
        assert !AllDigits(t[1..]) by { assert t[1..][0] == ' '; }
      } else {
        assert t[1..] == [];
      }
    }
  }

  /**
   * The sort key of a label depends on its resolution alone: the number
   * before the resolution's first 'p' when it has one, and never a number
   * when it has none (the " - " that follows cannot be part of an integer).
   */
  lemma KeyFromResolution(resolution: string, details: string)
    ensures 'p' in resolution ==> ResolutionKey(Label(resolution, details)) == ParseSigned(Strip(Before(resolution, 'p')))
    ensures 'p' !in resolution ==> ResolutionKey(Label(resolution, details)) == None
  {
    var tail := " - " + details;
    KeyBeforeP(resolution + tail);
    BeforeAppend(resolution, tail, 'p');
    if 'p' !in resolution {
      BeforeAppend(" - ", details, 'p');
      DashRejects(resolution, Before(details, 'p'));
    }
  }

  // ----- list_available_streams -----

  predicate Usable(s: Stream) {
    s.resolution.Some? && s.filesize.Some?
  }

  /** The entry offered for a usable stream. */
  function Labelled(s: Stream, details: Stream -> string): Entry
    requires Usable(s)
  {
    Entry(Label(s.resolution.value, details(s)), s)
  }

  /** The entries the loop appends: usable streams with their labels, in input order. */
  function Offered(streams: seq<Stream>, details: Stream -> string): (r: seq<Entry>)
    ensures |r| <= |streams|
    ensures forall i :: 0 <= i < |r| ==> r[i].stream in streams
    ensures forall i :: 0 <= i < |r| ==> Usable(r[i].stream) && r[i] == Labelled(r[i].stream, details)
  {
    if streams == [] then []
    else
      var s := streams[|streams| - 1];
      Offered(streams[..|streams| - 1], details)
        + (if Usable(s) then [Labelled(s, details)] else [])
  }

  /** A single stream is offered, with its label, exactly when it is usable. */
  lemma OfferedOne(s: Stream, details: Stream -> string)
    ensures Offered([s], details) == if Usable(s) then [Labelled(s, details)] else []
  {
    assert [s][..0] == [];
  }

  /** Offering keeps the input order: the entries of a concatenation are those of its parts, in turn. */
  lemma {:induction false} OfferedConcat(a: seq<Stream>, b: seq<Stream>, details: Stream -> string)
    ensures Offered(a + b, details) == Offered(a, details) + Offered(b, details)
    decreases |b|
  {
    if b == [] {
      assert a + b == a;
    } else {
      var s := b[|b| - 1];
      var b' := b[..|b| - 1];
      OfferedConcat(a, b', details);
      assert (a + b)[..|a + b| - 1] == a + b';
      assert (a + b)[|a + b| - 1] == s;
    }
  }

  /** Every stream with a resolution and a size is offered. */
  lemma {:induction false} UsableIsOffered(streams: seq<Stream>, details: Stream -> string, i: nat)
    requires i < |streams| && Usable(streams[i])
    ensures Labelled(streams[i], details) in Offered(streams, details)
  {
    if i < |streams| - 1 {
      UsableIsOffered(streams[..|streams| - 1], details, i);
    }
  }

  /** The resolution sort key; only consulted when every label has one. */
  function ByResolution(e: Entry): int {
    ResolutionKey(e.info).GetOr(0)
  }

  /** The fallback sort key. */
  function ByRank(e: Entry): int {
    e.stream.rank
  }

  predicate AllKeyed(entries: seq<Entry>) {
    forall i :: 0 <= i < |entries| ==> ResolutionKey(entries[i].info).Some?
  }

  /** The order the list is shown in. */
  function Ordered(entries: seq<Entry>): seq<Entry> {
    if AllKeyed(entries) then SortBy(entries, ByResolution) else SortBy(entries, ByRank)
  }

  /**
   * The shown list is a permutation of the offered entries. When every
   * label has a resolution number it is ascending in that number; else the
   * whole list is ascending in the fallback key. Either way ties keep their
   * input order.
   */
  lemma OrderedSpec(entries: seq<Entry>)
    ensures multiset(Ordered(entries)) == multiset(entries)
    ensures AllKeyed(entries) ==> AllKeyed(Ordered(entries))
    ensures AllKeyed(entries) ==> forall i, j :: 0 <= i < j < |Ordered(entries)| ==>
              ResolutionKey(Ordered(entries)[i].info).value <= ResolutionKey(Ordered(entries)[j].info).value
    ensures AllKeyed(entries) ==> forall k :: Having(Ordered(entries), ByResolution, k) == Having(entries, ByResolution, k)
    ensures !AllKeyed(entries) ==> SortedBy(Ordered(entries), ByRank)
    ensures !AllKeyed(entries) ==> forall k :: Having(Ordered(entries), ByRank, k) == Having(entries, ByRank, k)
  {
    var r := Ordered(entries);
    if AllKeyed(entries) {
      SortByOrders(entries, ByResolution);
      forall i | 0 <= i < |r| ensures ResolutionKey(r[i].info).Some? {
        assert r[i] in multiset(entries);
        var j :| 0 <= j < |entries| && entries[j] == r[i];
      }
      forall i, j | 0 <= i < j < |r|
        ensures ResolutionKey(r[i].info).value <= ResolutionKey(r[j].info).value
      {
        assert ByResolution(r[i]) <= ByResolution(r[j]);
      }
      forall k ensures Having(r, ByResolution, k) == Having(entries, ByResolution, k) {
        SortByStable(entries, ByResolution, k);
      }
    } else {
      SortByOrders(entries, ByRank);
      forall k ensures Having(r, ByRank, k) == Having(entries, ByRank, k) {
        SortByStable(entries, ByRank, k);
      }
    }
  }

  /** The loop of `list_available_streams`: keep the usable streams, in order, with their labels. */
  method CollectOffered(streams: seq<Stream>, details: Stream -> string) returns (available: seq<Entry>)
    ensures available == Offered(streams, details)
  {
    available := [];
    for i := 0 to |streams|
      invariant available == Offered(streams[..i], details)
    {
      var s := streams[i];
      assert streams[..i + 1][..i] == streams[..i];
      if Usable(s) {
        available := available + [Labelled(s, details)];
      }
    }
    assert streams[..|streams|] == streams;
  }

  /** `list_available_streams`: the offered entries, sorted for display. */
  method ListAvailableStreams(streams: seq<Stream>, details: Stream -> string) returns (listed: seq<Entry>)
    ensures listed == Ordered(Offered(streams, details))
  {
    var available := CollectOffered(streams, details);
    if forall j :: 0 <= j < |available| ==> ResolutionKey(available[j].info).Some? {
      listed := SortBy(available, ByResolution);
    } else {
      listed := SortBy(available, ByRank);
    }
  }

  lemma OfferedThree(a: Stream, b: Stream, c: Stream, details: Stream -> string)
    requires Usable(a) && Usable(b) && Usable(c)
    ensures Offered([a, b, c], details) == [Labelled(a, details), Labelled(b, details), Labelled(c, details)]
  {
    assert [a][..0] == [];
    assert Offered([a], details) == [Labelled(a, details)];
    assert [a, b][..1] == [a];
    assert Offered([a, b], details) == [Labelled(a, details), Labelled(b, details)];
    assert [a, b, c][..2] == [a, b];
  }

  /**
   * Labels "1080p", "bad" and "720p": the label without a number makes the
   * whole list fall back to the rank order.
   */
  lemma OneBadLabelFallsBack(a: Stream, b: Stream, c: Stream, details: Stream -> string)
    requires a.resolution == Some("1080p") && b.resolution == Some("bad") && c.resolution == Some("720p")
    requires a.filesize.Some? && b.filesize.Some? && c.filesize.Some?
    ensures Ordered(Offered([a, b, c], details)) == SortBy(Offered([a, b, c], details), ByRank)
  {
    OfferedThree(a, b, c, details);
    var offered := Offered([a, b, c], details);
    assert offered[1].info == Label("bad", details(b));
    KeyFromResolution("bad", details(b));
    assert !AllKeyed(offered);
  }

  // ----- get_user_choice -----

  /** `int(typed.strip())` checked against `1 <= choice <= count`, as an index into the list. */
  function ChoiceIndex(typed: string, count: nat): (r: Option<nat>)
    ensures r.Some? ==> r.value < count
  {
    match ParseInt(Strip(typed))
    case Some(choice) => if 1 <= choice <= count then Some(choice - 1) else None
    case None => None
  }

  /**
   * Exactly the lines that, stripped, spell a listed row number select a
   * row; a line `int()` reads unstripped selects by that same value.
   */
  lemma ChoiceIndexExactly(typed: string, count: nat)
    ensures ChoiceIndex(typed, count).Some? <==>
              ParseSigned(Strip(typed)).Some? && 1 <= ParseSigned(Strip(typed)).value <= count
    ensures ParseInt(typed).Some? ==>
              (ChoiceIndex(typed, count).Some? <==> 1 <= ParseInt(typed).value <= count)
  {
    ParseIntStripped(typed);
  }

  /** The number printed beside row `i` (counting from 1) selects that row. */
  lemma ChoiceOfListedNumber(i: nat, count: nat)
    requires i < count
    ensures ChoiceIndex(Decimal(i + 1), count) == Some(i)
  {
    var typed := Decimal(i + 1);
    ParseIntStripped(typed);
    ParseIntDecimal(i + 1);
    assert ParseInt(Strip(typed)) == Some(i + 1);
  }

  /** None of the first `upto` lines selects a row. */
  predicate Rejected(lines: seq<string>, upto: nat, count: nat)
    requires upto <= |lines|
  {
    forall j :: 0 <= j < upto ==> ChoiceIndex(lines[j], count).None?
  }

  /**
   * `get_user_choice`: read lines until one is a listed number; the stream of
   * that row is returned, with how many lines were read. `None` stands for
   * the end of input.
   */
  method GetUserChoice(listed: seq<Entry>, typed: seq<string>) returns (chosen: Option<Stream>, used: nat)
    ensures used <= |typed|
    ensures chosen.None? ==> used == |typed| && Rejected(typed, used, |listed|)
    ensures chosen.Some? ==> 1 <= used && Rejected(typed, used - 1, |listed|)
    ensures chosen.Some? ==> ChoiceIndex(typed[used - 1], |listed|).Some?
    ensures chosen.Some? ==> chosen.value == listed[ChoiceIndex(typed[used - 1], |listed|).value].stream
  {
    used := 0;
    while used < |typed|
      invariant used <= |typed| && Rejected(typed, used, |listed|)
    {
      var choice := ChoiceIndex(typed[used], |listed|);
      used := used + 1;
      if choice.Some? {
        return Some(listed[choice.value].stream), used;
      }
    }
    return None, used;
  }
}
