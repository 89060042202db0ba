/** `removeMajorVersionFromPath`: drop every "/"-separated segment of a
    package path that `isVNPart` accepts, rejoin the rest with "/", and put
    back the closing quote of a Go string literal when the dropped segment was
    the last one and carried it. The second result is how many bytes shorter
    the path became. */
module PathStrip {
  import opened GoStrings
  import opened MajorVersion

  /** The two results of `removeMajorVersionFromPath`. */
  datatype Stripped = Stripped(path: GoString, removed: int)

  /** The segments `isVNPart` rejects, in their original order: the `nonVN`
      slice the loop builds. */
  function Kept(parts: seq<GoString>): (kept: seq<GoString>)
    ensures |kept| <= |parts|
    ensures forall i :: 0 <= i < |kept| ==> !IsVNPart(kept[i])
    decreases |parts|
  {
    if |parts| == 0 then []
    else (if IsVNPart(parts[0]) then [] else [parts[0]]) + Kept(parts[1..])
  }

  /** A segment is kept exactly when it is one of the input segments and
      `isVNPart` rejects it. */
  lemma {:induction false} KeptMembers(parts: seq<GoString>, x: GoString)
    ensures x in Kept(parts) <==> x in parts && !IsVNPart(x)
    decreases |parts|
  {
    if |parts| > 0 {
      KeptMembers(parts[1..], x);
      assert parts == [parts[0]] + parts[1..];
    }
  }

  /** Some segment is a major-version segment. */
  predicate HasVersionPart(parts: seq<GoString>) {
    exists i :: 0 <= i < |parts| && IsVNPart(parts[i])
  }

  /** The `endQuote` flag once the loop has seen the first `n` segments. A
      version segment overwrites it with "this is the last index and the
      segment ends in a quote"; any other segment leaves it alone. */
  function EndQuoteAfter(parts: seq<GoString>, n: nat): bool
    requires n <= |parts|
    decreases n
  {
    if n == 0 then false
    else if IsVNPart(parts[n - 1]) then n - 1 == |parts| - 1 && EndsWithQuote(parts[n - 1])
    else EndQuoteAfter(parts, n - 1)
  }

  /** Before the last segment has been seen the flag is still false: only the
      last index can set it. */
  lemma {:induction false} EndQuoteUnsetBeforeLast(parts: seq<GoString>, n: nat)
    requires n < |parts|
    ensures !EndQuoteAfter(parts, n)
    decreases n
  {
    if n > 0 && !IsVNPart(parts[n - 1]) {
      EndQuoteUnsetBeforeLast(parts, n - 1);
    }
  }

  /** The value `endQuote` holds when the loop ends: true exactly when the
      last segment is a version segment that ends in a quote, whatever the
      earlier segments were. */
  predicate RestoresQuote(parts: seq<GoString>): (b: bool)
    requires |parts| > 0
    ensures b == EndQuoteAfter(parts, |parts|)
  {
    EndQuoteUnsetBeforeLast(parts, |parts| - 1);
    var last := parts[|parts| - 1];
    IsVNPart(last) && EndsWithQuote(last)
  }

  /** The closing quote to put back, if any. */
  function QuoteIf(b: bool): (q: GoString)
    ensures |q| <= 1 && (b <==> q == [Quote])
  {
    if b then [Quote] else []
  }

  /** The path with its version segments removed, and the byte count removed.
      The count is the length difference, never negative, positive exactly
      when some segment was a version segment, and zero only when the path
      comes back unchanged. */
  function Strip(path: GoString): (r: Stripped)
    ensures r.removed == |path| - |r.path|
    ensures r.removed >= 0
    ensures r.removed > 0 <==> HasVersionPart(Split(path))
    ensures r.removed == 0 ==> r.path == path
  {
    var parts := Split(path);
    var kept := Kept(parts);
    var out := Join(kept) + QuoteIf(RestoresQuote(parts));
    KeptMeasure(parts);
    JoinSplit(path);
    Stripped(out, |path| - |out|)
  }

  /** The source's `removeMajorVersionFromPath`: split, run the loop over the
      segments, join, and put the quote back when the flag says so. */
  method RemoveMajorVersionFromPath(pkgPath: GoString) returns (r: GoString, removed: int)
    ensures Stripped(r, removed) == Strip(pkgPath)
  {
    var parts := Split(pkgPath);
    var nonVN, endQuote := FilterParts(parts);
    r := Join(nonVN);
    if endQuote {
      r := r + [Quote];
    }
    removed := |pkgPath| - |r|;
  }

  /** The loop of `removeMajorVersionFromPath` as the source writes it: keep
      each segment `isVNPart` rejects, and overwrite `endQuote` at each one it
      accepts. */
  method FilterParts(parts: seq<GoString>) returns (nonVN: seq<GoString>, endQuote: bool)
    requires |parts| > 0
    ensures nonVN == Kept(parts)
    ensures endQuote == RestoresQuote(parts)
  {
    nonVN := [];
    endQuote := false;
    var i := 0;
    while i < |parts|
      invariant 0 <= i <= |parts|
      invariant nonVN == Kept(parts[..i])
      invariant endQuote == EndQuoteAfter(parts, i)
    {
      var p := parts[i];
      KeptStep(parts, i);
      if IsVNPart(p) {
        endQuote := i == |parts| - 1 && EndsWithQuote(p);
      } else {
        nonVN := nonVN + [p];
      }
      i := i + 1;
    }
    assert parts[..i] == parts;
  }

  /** One more segment of the loop: kept or dropped according to `isVNPart`. */
  lemma KeptStep(parts: seq<GoString>, i: nat)
    requires i < |parts|
    ensures Kept(parts[..i + 1]) == Kept(parts[..i]) + if IsVNPart(parts[i]) then [] else [parts[i]]
  {
    assert parts[..i + 1] == parts[..i] + [parts[i]];
    KeptAppend(parts[..i], [parts[i]]);
    KeptSingle(parts[i]);
  }

  /** Filtering distributes over concatenation: segments keep their order. */
  lemma {:induction false} KeptAppend(a: seq<GoString>, b: seq<GoString>)
    ensures Kept(a + b) == Kept(a) + Kept(b)
    decreases |a|
  {
    if |a| == 0 {
      assert a + b == b;
    } else {
      assert (a + b)[0] == a[0];
      assert (a + b)[1..] == a[1..] + b;
      KeptAppend(a[1..], b);
    }
  }

  /** Every dropped segment is at least two bytes long (`v` and a digit), and
      nothing is dropped exactly when no segment is a version segment. */
  lemma {:induction false} KeptMeasure(parts: seq<GoString>)
    ensures TotalLen(parts) >= TotalLen(Kept(parts)) + 2 * (|parts| - |Kept(parts)|)
    ensures |Kept(parts)| == |parts| <==> !HasVersionPart(parts)
    ensures !HasVersionPart(parts) ==> Kept(parts) == parts
    decreases |parts|
  {
    if |parts| > 0 {
      KeptMeasure(parts[1..]);
      var head := if IsVNPart(parts[0]) then [] else [parts[0]];
      TotalLenAppend(head, Kept(parts[1..]));
      if HasVersionPart(parts[1..]) {
        var i :| 0 <= i < |parts[1..]| && IsVNPart(parts[1..][i]);
        assert IsVNPart(parts[i + 1]);
      }
      if !IsVNPart(parts[0]) && HasVersionPart(parts) {
        var i :| 0 <= i < |parts| && IsVNPart(parts[i]);
        assert IsVNPart(parts[1..][i - 1]);
      }
      if !HasVersionPart(parts) {
        assert !IsVNPart(parts[0]);
        assert [parts[0]] + parts[1..] == parts;
      }
    }
  }

  /** The output's segments are exactly the kept input segments, in order;
      the restored quote, if any, lands on the last of them. */
  lemma StripSegments(path: GoString)
    ensures var parts := Split(path);
            var kept := Kept(parts);
            var q := QuoteIf(RestoresQuote(parts));
            Split(Strip(path).path)
              == if |kept| == 0 then [q] else kept[..|kept| - 1] + [kept[|kept| - 1] + q]
  {
    var parts := Split(path);
    var kept := Kept(parts);
    var q := QuoteIf(RestoresQuote(parts));
    assert Strip(path).path == Join(kept) + q;
    KeptSlashFree(parts);
    SplitJoinQuote(kept, q);
  }

  /** Kept segments are input segments, so they hold no separator. */
  lemma KeptSlashFree(parts: seq<GoString>)
    requires SlashFree(parts)
    ensures SlashFree(Kept(parts))
  {
    var kept := Kept(parts);
    forall i | 0 <= i < |kept| ensures Slash !in kept[i] {
      KeptMembers(parts, kept[i]);
    }
  }

  /** Re-splitting a join of slash-free parts followed by an optional quote. */
  lemma SplitJoinQuote(kept: seq<GoString>, q: GoString)
    requires SlashFree(kept)
    requires q == [] || q == [Quote]
    ensures Split(Join(kept) + q)
              == if |kept| == 0 then [q] else kept[..|kept| - 1] + [kept[|kept| - 1] + q]
  {
    if |kept| == 0 {
      assert Join(kept) + q == q;
      SplitSlashFree(q);
    } else {
      SplitJoin(kept);
      if q == [Quote] {
        SplitSnoc(Join(kept), Quote);
      } else {
        assert Join(kept) + q == Join(kept);
        assert kept[|kept| - 1] + q == kept[|kept| - 1];
        assert kept[..|kept| - 1] + [kept[|kept| - 1]] == kept;
      }
    }
  }

  /** Stripping twice is stripping once: the second pass finds no version
      segment and removes nothing. */
  lemma StripIdempotent(path: GoString)
    ensures Strip(Strip(path).path) == Stripped(Strip(path).path, 0)
  {
    NoVersionPartLeft(path);
  }

  /** No segment of the output is a version segment: kept segments were
      rejected by `isVNPart`, and a restored quote does not change that. */
  lemma NoVersionPartLeft(path: GoString)
    ensures !HasVersionPart(Split(Strip(path).path))
  {
    var parts := Split(path);
    StripSegments(path);
    KeptRejected(parts);
    SegmentsUnversioned(Kept(parts), QuoteIf(RestoresQuote(parts)), Split(Strip(path).path));
  }

  /** Every kept segment is one `isVNPart` rejects. */
  lemma KeptRejected(parts: seq<GoString>)
    ensures forall i :: 0 <= i < |Kept(parts)| ==> !IsVNPart(Kept(parts)[i])
  {
    var kept := Kept(parts);
    forall i | 0 <= i < |kept| ensures !IsVNPart(kept[i]) {
      KeptMembers(parts, kept[i]);
    }
  }

  /** Rejected segments, the last one possibly followed by a quote, are still
      all rejected. */
  lemma SegmentsUnversioned(kept: seq<GoString>, q: GoString, outParts: seq<GoString>)
    requires forall i :: 0 <= i < |kept| ==> !IsVNPart(kept[i])
    requires q == [] || q == [Quote]
    requires outParts == if |kept| == 0 then [q] else kept[..|kept| - 1] + [kept[|kept| - 1] + q]
    ensures !HasVersionPart(outParts)
  {
    forall i | 0 <= i < |outParts| ensures !IsVNPart(outParts[i]) {
      if |kept| > 0 {
        var last := kept[|kept| - 1];
        if i < |kept| - 1 {
          assert outParts[i] == kept[i];
        } else {
          assert outParts[i] == last + q;
          QuoteKeepsVerdict(last);
          assert last + [] == last;
        }
      }
    }
  }

  /** A Go string literal: at least two bytes, opening and closing quote. */
  predicate IsQuotedLiteral(s: GoString) {
    |s| >= 2 && s[0] == Quote && s[|s| - 1] == Quote
  }

  /** Stripping a quoted import literal leaves a quoted literal: the first
      segment starts with the opening quote and so is never a version
      segment, and the closing quote is either on a kept last segment or
      restored after a dropped one. */
  lemma StripKeepsQuotedLiteral(path: GoString)
    requires IsQuotedLiteral(path)
    ensures IsQuotedLiteral(Strip(path).path)
  {
    var parts := Split(path);
    if HasVersionPart(parts) {
      LastPartEndsLikePath(path);
      if RestoresQuote(parts) {
        QuotedWhenRestored(path);
      } else {
        QuotedWhenLastKept(path);
      }
    }
  }

  lemma QuotedWhenRestored(path: GoString)
    requires IsQuotedLiteral(path)
    requires RestoresQuote(Split(path))
    ensures IsQuotedLiteral(Strip(path).path)
  {
    var parts := Split(path);
    QuotedFirstKept(parts);
    var kept := Kept(parts);
    JoinedThenQuote(kept);
    assert Strip(path).path == Join(kept) + [Quote];
  }

  lemma QuotedWhenLastKept(path: GoString)
    requires IsQuotedLiteral(path)
    requires var parts := Split(path);
             var last := parts[|parts| - 1];
             |parts| > 1 && EndsWithQuote(last) && !RestoresQuote(parts)
    ensures IsQuotedLiteral(Strip(path).path)
  {
    var parts := Split(path);
    SplitFirst(path);
    var last := parts[|parts| - 1];
    assert !IsVNPart(last);
    QuotedKeptParts(parts);
    StripPath(path);
  }

  /** What `Strip` returns, in terms of the segments. */
  lemma StripPath(path: GoString)
    ensures var parts := Split(path);
            Strip(path).path == Join(Kept(parts)) + QuoteIf(RestoresQuote(parts))
  {
  }

  /** The segment-level half: the first segment opens with a quote and the
      last, kept, segment closes with one. */
  lemma QuotedKeptParts(parts: seq<GoString>)
    requires |parts| > 1 && |parts[0]| > 0 && parts[0][0] == Quote
    requires EndsWithQuote(parts[|parts| - 1]) && !IsVNPart(parts[|parts| - 1])
    ensures IsQuotedLiteral(Join(Kept(parts)))
  {
    var n := |parts|;
    var last := parts[n - 1];
    var init := parts[..n - 1];
    assert init[0] == parts[0];
    QuotedFirstKept(init);
    assert parts == init + [last];
    KeptLastKept(init, last);
    JoinedThenQuotedPart(Kept(init), last);
  }

  /** A last segment that `isVNPart` rejects is the last kept segment. */
  lemma KeptLastKept(init: seq<GoString>, last: GoString)
    requires !IsVNPart(last)
    ensures Kept(init + [last]) == Kept(init) + [last]
  {
    KeptAppend(init, [last]);
    KeptSingle(last);
  }

  /** A first segment that opens with a quote is kept, and comes first. */
  lemma QuotedFirstKept(parts: seq<GoString>)
    requires |parts| > 0 && |parts[0]| > 0 && parts[0][0] == Quote
    ensures |Kept(parts)| > 0 && Kept(parts)[0] == parts[0]
  {
    assert !IsVNPart(parts[0]);
  }

  /** Filtering a single segment. */
  lemma KeptSingle(x: GoString)
    ensures Kept([x]) == if IsVNPart(x) then [] else [x]
  {
    assert [x][1..] == [];
  }

  lemma JoinedThenQuote(kept: seq<GoString>)
    requires |kept| > 0 && |kept[0]| > 0 && kept[0][0] == Quote
    ensures IsQuotedLiteral(Join(kept) + [Quote])
  {
  }

  lemma JoinedThenQuotedPart(kept: seq<GoString>, last: GoString)
    requires |kept| > 0 && |kept[0]| > 0 && kept[0][0] == Quote
    requires EndsWithQuote(last)
    ensures IsQuotedLiteral(Join(kept + [last]))
  {
    JoinSnoc(kept, last);
  }

  /** The last segment ends with the path's last byte when that byte is not
      a separator. */
  lemma LastPartEndsLikePath(path: GoString)
    requires |path| > 0 && path[|path| - 1] != Slash
    ensures var parts := Split(path);
            var last := parts[|parts| - 1];
            |last| > 0 && last[|last| - 1] == path[|path| - 1]
  {
    var init := path[..|path| - 1];
    assert path == init + [path[|path| - 1]];
    SplitSnoc(init, path[|path| - 1]);
  }

  /** Stripping never introduces a byte: the output's bytes are a sub-multiset
      of the input's. In particular a quote is only ever put back, never
      added. */
  lemma StripNeverAddsBytes(path: GoString)
    ensures multiset(Strip(path).path) <= multiset(path)
  {
    var parts := Split(path);
    JoinSplit(path);
    JoinKeptBytes(parts);
  }

  /** Byte accounting for the join of the kept segments, with and without
      the restored quote. */
  lemma {:induction false} JoinKeptBytes(parts: seq<GoString>)
    requires |parts| > 0
    ensures multiset(Join(Kept(parts))) <= multiset(Join(parts))
    ensures RestoresQuote(parts) ==> multiset(Join(Kept(parts)) + [Quote]) <= multiset(Join(parts))
    decreases |parts|
  {
    var n := |parts|;
    var last := parts[n - 1];
    if n == 1 {
      JoinKeptBytesSingle(last);
      assert parts == [last];
    } else {
      var init := parts[..n - 1];
      assert parts == init + [last];
      JoinKeptBytes(init);
      KeptAppend(init, [last]);
      KeptSingle(last);
      JoinSnoc(init, last);
      var jp := Join(parts);
      assert jp == Join(init) + [Slash] + last;
      if IsVNPart(last) {
        assert Kept(parts) == Kept(init);
        BagDropLast(Join(Kept(parts)), jp, Join(Kept(init)), Join(init), last);
      } else {
        assert Kept(parts) == Kept(init) + [last];
        assert !RestoresQuote(parts);
        BagKeepLast(Kept(init), Join(init), last);
      }
    }
  }

  lemma JoinKeptBytesSingle(last: GoString)
    ensures multiset(Join(Kept([last]))) <= multiset(Join([last]))
    ensures RestoresQuote([last]) ==> multiset(Join(Kept([last])) + [Quote]) <= multiset(Join([last]))
  {
    KeptSingle(last);
    if RestoresQuote([last]) {
      QuoteInBag(last);
    }
  }

  lemma QuoteInBag(last: GoString)
    requires EndsWithQuote(last)
    ensures multiset([Quote]) <= multiset(last)
  {
    assert last == last[..|last| - 1] + [Quote];
  }

  /** Dropping the last segment keeps the byte bound; the quote it carried may
      be put back. */
  lemma BagDropLast(kp: GoString, jp: GoString, k: GoString, j: GoString, last: GoString)
    requires kp == k && jp == j + [Slash] + last
    requires multiset(k) <= multiset(j)
    ensures multiset(kp) <= multiset(jp)
    ensures EndsWithQuote(last) ==> multiset(kp + [Quote]) <= multiset(jp)
  {
    if EndsWithQuote(last) {
      QuoteInBag(last);
    }
  }

  /** Keeping the last segment keeps the byte bound. */
  lemma BagKeepLast(kept: seq<GoString>, j: GoString, last: GoString)
    requires multiset(Join(kept)) <= multiset(j)
    ensures multiset(Join(kept + [last])) <= multiset(j + [Slash] + last)
  {
    if |kept| == 0 {
      assert kept + [last] == [last];
    } else {
      JoinSnoc(kept, last);
    }
  }
}
