/**
 * The large-object finder, the first half of findLargeFiles: scan the
 * `cat-file --batch-check --batch-all-objects` listing, keep the blobs at or
 * above the threshold, sort them by size, largest first, keeping the scan
 * order among equal sizes, and keep the first `maxResults`.
 */
module Finder {
  import opened Wrappers
  import opened JsText
  import opened Report

  /**
   * The blob one listing line `<hash> <type> <size>` describes, when the line
   * is not blank, its type field is `blob` and its size field parses to a
   * number at or above the threshold. A missing size field is undefined,
   * which parses to NaN, which compares false.
   */
  function KeptBlob(line: string, threshold: int): (r: Option<BlobRecord>)
    ensures r.Some? ==> r.value.size >= threshold
    ensures r.Some? ==> Trim(line) != []
    ensures r.Some? ==>
              var f := Split(line, ' ');
              |f| >= 3 && f[0] == r.value.hash && f[1] == "blob" && ParseInt(f[2]) == Some(r.value.size)
  {
    if Trim(line) == [] then None
    else
      var fields := Split(line, ' ');
      var size := if |fields| >= 3 then ParseInt(fields[2]) else None;
      if |fields| >= 2 && fields[1] == "blob" && size.Some? && size.value >= threshold then
        Some(BlobRecord(fields[0], size.value))
      else None
  }

  /** The values `keep` gives the lines, in line order, where it gives one. */
  function Collect(lines: seq<string>, keep: string -> Option<BlobRecord>): (r: seq<BlobRecord>)
    ensures |r| <= |lines|
  {
    if lines == [] then []
    else
      Collect(lines[..|lines| - 1], keep)
      + match keep(lines[|lines| - 1])
        case Some(b) => [b]
        case None => []
  }

  /** Every collected value is what `keep` gives some line. */
  lemma {:induction false} CollectSound(lines: seq<string>, keep: string -> Option<BlobRecord>)
    ensures forall b :: b in Collect(lines, keep) ==> exists i :: 0 <= i < |lines| && keep(lines[i]) == Some(b)
  {
    if lines != [] {
      var init := lines[..|lines| - 1];
      CollectSound(init, keep);
      forall b | b in Collect(lines, keep) ensures exists i :: 0 <= i < |lines| && keep(lines[i]) == Some(b) {
        if b in Collect(init, keep) {
          var i :| 0 <= i < |init| && keep(init[i]) == Some(b);
          assert lines[i] == init[i];
        } else {
          assert keep(lines[|lines| - 1]) == Some(b);
        }
      }
    }
  }

  /** Every line `keep` gives a value contributes it. */
  lemma {:induction false} CollectComplete(lines: seq<string>, keep: string -> Option<BlobRecord>)
    ensures forall i :: 0 <= i < |lines| && keep(lines[i]).Some? ==> keep(lines[i]).value in Collect(lines, keep)
  {
    if lines != [] {
      var init := lines[..|lines| - 1];
      CollectComplete(init, keep);
      forall i | 0 <= i < |init| ensures lines[i] == init[i] {
      }
    }
  }

  /** The blobs kept from the listing lines, in scan order. */
  function Scan(lines: seq<string>, threshold: int): seq<BlobRecord> {
    Collect(lines, line => KeptBlob(line, threshold))
  }

  /**
   * Every scanned blob is at or above the threshold and comes from a line
   * that keeps it; every line that keeps a blob contributes it.
   */
  lemma ScanSoundAndComplete(lines: seq<string>, threshold: int)
    ensures forall b :: b in Scan(lines, threshold) ==>
              b.size >= threshold && exists i :: 0 <= i < |lines| && KeptBlob(lines[i], threshold) == Some(b)
    ensures forall i :: 0 <= i < |lines| && KeptBlob(lines[i], threshold).Some? ==>
              KeptBlob(lines[i], threshold).value in Scan(lines, threshold)
  {
    var keep := line => KeptBlob(line, threshold);
    CollectSound(lines, keep);
    CollectComplete(lines, keep);
    forall b | b in Scan(lines, threshold) ensures b.size >= threshold {
      var i :| 0 <= i < |lines| && keep(lines[i]) == Some(b);
    }
  }

  /**
   * The line git prints for a blob, `<hash> blob <size>`, is kept exactly
   * when its size is at least the threshold: a blob of exactly the threshold
   * is kept, one byte less is not.
   */
  lemma ThresholdBoundary(hash: string, size: nat, threshold: int)
    requires ' ' !in hash
    ensures KeptBlob(hash + " blob " + Decimal(size), threshold)
            == if size >= threshold then Some(BlobRecord(hash, size)) else None
  {
    var line := hash + " blob " + Decimal(size);
    assert ' ' !in Decimal(size) by {
      assert forall k :: 0 <= k < |Decimal(size)| ==> IsDecimalDigit(Decimal(size)[k]);
    }
    SplitBlobLine(hash, Decimal(size));
    BlobLineNotBlank(hash, Decimal(size));
    ParseDecimal(size);
    KeptBlobOfFields(line, threshold, hash, Decimal(size), size);
  }

  /** A listing line `<hash> <type> <size>` splits into its three fields. */
  lemma SplitObjectLine(hash: string, kind: string, sizeField: string)
    requires ' ' !in hash && ' ' !in kind && ' ' !in sizeField
    ensures Split(hash + " " + kind + " " + sizeField, ' ') == [hash, kind, sizeField]
  {
    var parts := [hash, kind, sizeField];
    assert Join(parts[1..], ' ') == kind + [' '] + sizeField;
    assert Join(parts, ' ') == hash + " " + kind + " " + sizeField;
    SplitJoin(parts, ' ');
  }

  lemma SplitBlobLine(hash: string, sizeField: string)
    requires ' ' !in hash && ' ' !in sizeField
    ensures Split(hash + " blob " + sizeField, ' ') == [hash, "blob", sizeField]
  {
    assert hash + " blob " + sizeField == hash + " " + "blob" + " " + sizeField;
    SplitObjectLine(hash, "blob", sizeField);
  }

  /**
   * A listing line whose type is not `blob` (a tree, a commit, a tag) is
   * never kept, whatever its size.
   */
  lemma OnlyBlobsKept(hash: string, kind: string, sizeField: string, threshold: int)
    requires ' ' !in hash && ' ' !in kind && ' ' !in sizeField && kind != "blob"
    ensures KeptBlob(hash + " " + kind + " " + sizeField, threshold) == None
  {
    SplitObjectLine(hash, kind, sizeField);
  }

  lemma BlobLineNotBlank(hash: string, sizeField: string)
    ensures Trim(hash + " blob " + sizeField) != []
  {
    var line := hash + " blob " + sizeField;
    assert line[|hash| + 1] == 'b';
    assert !IsJsSpace(line[|hash| + 1]);
  }

  lemma KeptBlobOfFields(line: string, threshold: int, hash: string, sizeField: string, size: int)
    requires Trim(line) != []
    requires Split(line, ' ') == [hash, "blob", sizeField]
    requires ParseInt(sizeField) == Some(size)
    ensures KeptBlob(line, threshold) == if size >= threshold then Some(BlobRecord(hash, size)) else None
  {
  }

  predicate SortedBySize(s: seq<BlobRecord>) {
    forall i, j :: 0 <= i < j < |s| ==> s[i].size >= s[j].size
  }

  /** The subsequence of blobs of one size. */
  function OfSize(s: seq<BlobRecord>, v: int): seq<BlobRecord> {
    if s == [] then [] else (if s[0].size == v then [s[0]] else []) + OfSize(s[1..], v)
  }

  /** Places `b` before the first element that is no larger, so it precedes its equals. */
  function Insert(b: BlobRecord, s: seq<BlobRecord>): (r: seq<BlobRecord>)
    ensures |r| == |s| + 1
    ensures multiset(r) == multiset(s) + multiset{b}
  {
    if s == [] || s[0].size <= b.size then [b] + s
    else
      assert s == [s[0]] + s[1..];
      [s[0]] + Insert(b, s[1..])
  }

  lemma {:induction false} InsertSorted(b: BlobRecord, s: seq<BlobRecord>)
    requires SortedBySize(s)
    ensures SortedBySize(Insert(b, s))
    ensures Insert(b, s)[0].size == if s != [] && s[0].size > b.size then s[0].size else b.size
  {
    if s != [] && s[0].size > b.size {
      InsertSorted(b, s[1..]);
      var t := Insert(b, s[1..]);
      assert [s[0]] + t == Insert(b, s);
      assert t[0].size <= s[0].size by {
        if |s| > 1 && s[1].size > b.size {
          assert s[1..][0] == s[1];
        }
      }
      ConsSorted(s[0], t);
    } else {
      ConsSorted(b, s);
    }
  }

  /** Putting a blob no smaller than the head in front of a sorted list keeps it sorted. */
  lemma ConsSorted(x: BlobRecord, t: seq<BlobRecord>)
    requires SortedBySize(t) && (t == [] || t[0].size <= x.size)
    ensures SortedBySize([x] + t)
  {
    var r := [x] + t;
    forall i, j | 0 <= i < j < |r| ensures r[i].size >= r[j].size {
      if i == 0 {
        assert r[j] == t[j - 1];
        assert j - 1 == 0 || t[0].size >= t[j - 1].size;
      } else {
        assert r[i] == t[i - 1] && r[j] == t[j - 1];
      }
    }
  }

  /**
   * Array.prototype.sort with the comparator `(a, b) => b.size - a.size`,
   * which is stable: the blobs by size, largest first, with equal sizes in
   * their original order.
   */
  function SortBySize(s: seq<BlobRecord>): (r: seq<BlobRecord>)
    ensures |r| == |s|
    ensures multiset(r) == multiset(s)
    ensures SortedBySize(r)
  {
    if s == [] then []
    else
      assert s == [s[0]] + s[1..];
      InsertSorted(s[0], SortBySize(s[1..]));
      Insert(s[0], SortBySize(s[1..]))
  }

  lemma OfSizeCons(x: BlobRecord, t: seq<BlobRecord>, v: int)
    ensures OfSize([x] + t, v) == (if x.size == v then [x] else []) + OfSize(t, v)
  {
    assert ([x] + t)[1..] == t;
  }

  lemma {:induction false} InsertKeepsTies(b: BlobRecord, s: seq<BlobRecord>, v: int)
    ensures OfSize(Insert(b, s), v) == OfSize([b] + s, v)
  {
    if s != [] && s[0].size > b.size {
      var s' := s[1..];
      var hb := if b.size == v then [b] else [];
      var hs := if s[0].size == v then [s[0]] else [];
      calc {
        OfSize(Insert(b, s), v);
        { OfSizeCons(s[0], Insert(b, s'), v); }
        hs + OfSize(Insert(b, s'), v);
        { InsertKeepsTies(b, s', v); OfSizeCons(b, s', v); }
        hs + (hb + OfSize(s', v));
        { assert hs == [] || hb == []; }
        hb + (hs + OfSize(s', v));
        { OfSizeCons(s[0], s', v); assert [s[0]] + s' == s; }
        hb + OfSize(s, v);
        { OfSizeCons(b, s, v); }
        OfSize([b] + s, v);
      }
    }
  }

  /** Sorting keeps, for every size, the blobs of that size in their original order: the sort is stable. */
  lemma {:induction false} SortKeepsTies(s: seq<BlobRecord>, v: int)
    ensures OfSize(SortBySize(s), v) == OfSize(s, v)
  {
    if s != [] {
      SortKeepsTies(s[1..], v);
      InsertKeepsTies(s[0], SortBySize(s[1..]), v);
      assert ([s[0]] + SortBySize(s[1..]))[1..] == SortBySize(s[1..]);
    }
  }

  lemma {:induction false} OfSizeMembers(s: seq<BlobRecord>, v: int)
    ensures forall x :: x in OfSize(s, v) ==> x in s && x.size == v
  {
    if s != [] {
      OfSizeMembers(s[1..], v);
    }
  }

  lemma HeadSizeOccurs(c: seq<BlobRecord>)
    requires c != []
    ensures OfSize(c, c[0].size) != []
  {
  }

  /**
   * Sortedness and stability determine the result: two sequences sorted by
   * size that agree, size by size, on their elements in order are equal.
   * So SortBySize is the only stable descending sort of its input.
   */
  lemma {:induction false} StableSortUnique(a: seq<BlobRecord>, b: seq<BlobRecord>)
    requires SortedBySize(a) && SortedBySize(b)
    requires forall v :: OfSize(a, v) == OfSize(b, v)
    ensures a == b
  {
    if a == [] && b != [] {
      HeadSizeOccurs(b);
    } else if a != [] && b == [] {
      HeadSizeOccurs(a);
    } else if a != [] {
      HeadSizeBound(a, b);
      HeadSizeBound(b, a);
      SameHead(a, b);
      TailsAgree(a, b);
      StableSortUnique(a[1..], b[1..]);
      assert a == [a[0]] + a[1..] && b == [b[0]] + b[1..];
    }
  }

  /** The head of a list that agrees size by size with a sorted list is no larger than that list's head. */
  lemma HeadSizeBound(a: seq<BlobRecord>, b: seq<BlobRecord>)
    requires a != [] && SortedBySize(b)
    requires forall v :: OfSize(a, v) == OfSize(b, v)
    ensures b != [] && a[0].size <= b[0].size
  {
    var m := a[0].size;
    OfSizeCons(a[0], a[1..], m);
    assert [a[0]] + a[1..] == a;
    assert a[0] in OfSize(b, m);
    OfSizeMembers(b, m);
    var j :| 0 <= j < |b| && b[j] == a[0];
    assert j == 0 || b[0].size >= b[j].size;
  }

  /** Two lists whose heads have the same size and that agree size by size have the same head. */
  lemma SameHead(a: seq<BlobRecord>, b: seq<BlobRecord>)
    requires a != [] && b != [] && a[0].size == b[0].size
    requires forall v :: OfSize(a, v) == OfSize(b, v)
    ensures a[0] == b[0]
  {
    var m := a[0].size;
    OfSizeCons(a[0], a[1..], m);
    OfSizeCons(b[0], b[1..], m);
    assert [a[0]] + a[1..] == a && [b[0]] + b[1..] == b;
    assert OfSize(a, m)[0] == OfSize(b, m)[0];
  }

  /** Two lists with the same head that agree size by size have tails that agree size by size. */
  lemma TailsAgree(a: seq<BlobRecord>, b: seq<BlobRecord>)
    requires a != [] && b != [] && a[0] == b[0]
    requires forall v :: OfSize(a, v) == OfSize(b, v)
    ensures forall v :: OfSize(a[1..], v) == OfSize(b[1..], v)
  {
    forall v ensures OfSize(a[1..], v) == OfSize(b[1..], v) {
      TailAgreesAt(a, b, v);
    }
  }

  lemma TailAgreesAt(a: seq<BlobRecord>, b: seq<BlobRecord>, v: int)
    requires a != [] && b != [] && a[0] == b[0]
    requires OfSize(a, v) == OfSize(b, v)
    ensures OfSize(a[1..], v) == OfSize(b[1..], v)
  {
    var head := if a[0].size == v then [a[0]] else [];
    OfSizeCons(a[0], a[1..], v);
    OfSizeCons(b[0], b[1..], v);
    assert [a[0]] + a[1..] == a && [b[0]] + b[1..] == b;
    assert OfSize(a[1..], v) == OfSize(a, v)[|head|..];
  }

  /** Where `slice(0, k)` ends on a list of length `len`; a negative `k` counts from the end. */
  function SliceEnd(len: nat, k: int): (e: nat)
    ensures e <= len
    ensures k >= 0 ==> e <= k
    ensures 0 <= k <= len ==> e == k
    ensures k > len ==> e == len
    ensures k < 0 ==> (e == 0 <==> len <= -k) && (len > -k ==> len - e == -k)
  {
    if k < 0 then (if len + k < 0 then 0 else len + k)
    else if k > len then len
    else k
  }

  /** The candidates: the first `maxResults` kept blobs under the stable descending sort. */
  function Candidates(listing: string, threshold: int, maxResults: int): seq<BlobRecord> {
    var sorted := SortBySize(Scan(Split(listing, '\n'), threshold));
    sorted[..SliceEnd(|sorted|, maxResults)]
  }

  /**
   * The candidates are sorted by size, all at or above the threshold, and
   * the first min(maxResults, kept) of the sorted blobs; a negative
   * `maxResults` drops that many from the end instead.
   */
  lemma CandidatesBounds(listing: string, threshold: int, maxResults: int)
    ensures var c := Candidates(listing, threshold, maxResults);
      var kept := Scan(Split(listing, '\n'), threshold);
      SortedBySize(c)
      && (forall b :: b in c ==> b.size >= threshold)
      && (maxResults >= 0 ==> |c| <= maxResults)
      && (maxResults >= 0 ==> |c| == if maxResults < |kept| then maxResults else |kept|)
      && (maxResults < 0 ==> |c| == if |kept| + maxResults < 0 then 0 else |kept| + maxResults)
      && c == SortBySize(kept)[..|c|]
  {
    var lines := Split(listing, '\n');
    ScanAtThreshold(lines, threshold);
    SortedPrefixBounds(Scan(lines, threshold), threshold, maxResults);
  }

  /** Every scanned blob is at or above the threshold. */
  lemma ScanAtThreshold(lines: seq<string>, threshold: int)
    ensures forall b :: b in Scan(lines, threshold) ==> b.size >= threshold
  {
    ScanSoundAndComplete(lines, threshold);
  }

  /** Sorting and cutting keeps a bound every element meets, and the cut has at most `k` elements. */
  lemma SortedPrefixBounds(kept: seq<BlobRecord>, threshold: int, k: int)
    requires forall b :: b in kept ==> b.size >= threshold
    ensures var s := SortBySize(kept); var c := s[..SliceEnd(|s|, k)];
      SortedBySize(c) && (forall b :: b in c ==> b.size >= threshold) && (k >= 0 ==> |c| <= k)
  {
    var s := SortBySize(kept);
    var c := s[..SliceEnd(|s|, k)];
    forall b | b in c ensures b.size >= threshold {
      assert b in multiset(s);
      assert b in multiset(kept);
    }
  }

  /** Scanning one more line appends the blob that line keeps, if any. */
  lemma ScanStep(lines: seq<string>, i: nat, threshold: int)
    requires i < |lines|
    ensures Scan(lines[..i + 1], threshold) == Scan(lines[..i], threshold)
      + match KeptBlob(lines[i], threshold)
        case Some(b) => [b]
        case None => []
  {
    assert lines[..i + 1][..i] == lines[..i];
  }

  /**
   * The candidates are the first `maxResults` of any stable descending sort
   * of the kept blobs, since there is only one.
   */
  lemma CandidatesOfAnyStableSort(listing: string, threshold: int, maxResults: int, sorted: seq<BlobRecord>)
    requires SortedBySize(sorted)
    requires forall v :: OfSize(sorted, v) == OfSize(Scan(Split(listing, '\n'), threshold), v)
    ensures Candidates(listing, threshold, maxResults) == sorted[..SliceEnd(|sorted|, maxResults)]
  {
    var kept := Scan(Split(listing, '\n'), threshold);
    forall v ensures OfSize(SortBySize(kept), v) == OfSize(sorted, v) {
      SortKeepsTies(kept, v);
    }
    StableSortUnique(SortBySize(kept), sorted);
  }

  /**
   * The scanning half of findLargeFiles: push every kept blob, sort the
   * array, and take the first `maxResults`.
   */
  method FindCandidates(listing: string, threshold: int, maxResults: int) returns (objects: seq<BlobRecord>)
    ensures objects == Candidates(listing, threshold, maxResults)
    ensures SortedBySize(objects)
    ensures forall b :: b in objects ==> b.size >= threshold
    ensures maxResults >= 0 ==> |objects| <= maxResults
  {
    var kept := ScanListing(Split(listing, '\n'), threshold);
    var sorted := SortBySize(kept);
    objects := sorted[..SliceEnd(|sorted|, maxResults)];
    CandidatesBounds(listing, threshold, maxResults);
  }

  /** The loop over the listing lines that pushes every kept blob. */
  method ScanListing(lines: seq<string>, threshold: int) returns (kept: seq<BlobRecord>)
    ensures kept == Scan(lines, threshold)
  {
    kept := [];
    for i := 0 to |lines|
      invariant kept == Scan(lines[..i], threshold)
    {
      var line := lines[i];
      ScanStep(lines, i, threshold);
      if Trim(line) == [] {
        continue;
      }
      var fields := Split(line, ' ');
      var size := if |fields| >= 3 then ParseInt(fields[2]) else None;
      if |fields| >= 2 && fields[1] == "blob" && size.Some? && size.value >= threshold {
        kept := kept + [BlobRecord(fields[0], size.value)];
      }
    }
    assert lines[..|lines|] == lines;
  }
}
