/** The cases the repository's own tests of `isVNPart` and
    `removeMajorVersionFromPath` check, derived from the model. */
module Scenarios {
  import opened GoStrings
  import opened MajorVersion
  import opened PathStrip
  import opened StripCases

  /** A "v" followed by a digit is read as the digit run that follows. */
  lemma ScanTail(s: GoString, d: GoString)
    requires |s| > 1 && s[0] == 'v' && IsDigit(s[1])
    requires LeadingDigits(s[1..]) == d
    requires DecimalValue(d) < TwoTo63
    ensures ScanVersion(s) == Scanned(DecimalValue(d))
  {
    NoSpaceBeforeDigit(s[1..]);
  }

  /** One more digit at the end multiplies the value by ten and adds it. */
  lemma DecSnoc(d: GoString, c: Byte)
    ensures DecimalValue(d + [c]) == 10 * DecimalValue(d) + DigitValue(c)
  {
    assert (d + [c])[..|d|] == d;
  }

  /** The appended quote is ignored by the scan. */
  lemma ScanQuoted(s: GoString, sq: GoString)
    requires sq == s + [Quote]
    ensures ScanVersion(sq) == ScanVersion(s)
  {
    ScanIgnoresQuote(s);
  }

  // ---- isVNPart ----

  /** Segments that do not start with "v" are rejected, including a path
      fragment that starts with the separator. */
  lemma RejectsTestSegments()
    ensures !IsVNPart("abc") && !IsVNPart("/v1\"") && !IsVNPart("/v44")
    ensures !IsVNPart("gomobile-v2mod")
  {
  }

  lemma AcceptsV0()
    ensures ScanVersion("v0") == Scanned(0)
  {
    assert "v0"[1..] == "0";
    assert LeadingDigits("0") == "0";
    ScanTail("v0", "0");
  }

  lemma AcceptsV0Quote()
    ensures ScanVersion("v0\"") == Scanned(0)
  {
    AcceptsV0();
    ScanQuoted("v0", "v0\"");
  }

  lemma AcceptsV1()
    ensures ScanVersion("v1") == Scanned(1)
  {
    assert "v1"[1..] == "1";
    assert LeadingDigits("1") == "1";
    ScanTail("v1", "1");
  }

  lemma AcceptsV1Quote()
    ensures ScanVersion("v1\"") == Scanned(1)
  {
    AcceptsV1();
    ScanQuoted("v1", "v1\"");
  }

  lemma Value44()
    ensures DecimalValue("44") == 44
  {
    DecSnoc("4", '4');
    assert "4" + ['4'] == "44";
  }

  lemma Lead44()
    ensures LeadingDigits("44") == "44"
  {
    assert "44"[1..] == "4";
    assert "4"[1..] == [];
  }

  lemma AcceptsV44()
    ensures ScanVersion("v44") == Scanned(44)
  {
    assert "v44"[1..] == "44";
    Lead44();
    Value44();
    ScanTail("v44", "44");
  }

  lemma AcceptsV6()
    ensures ScanVersion("v6") == Scanned(6)
  {
    assert "v6"[1..] == "6";
    assert LeadingDigits("6") == "6";
    ScanTail("v6", "6");
  }

  lemma AcceptsV2Quote()
    ensures ScanVersion("v2\"") == Scanned(2)
  {
    assert "v2"[1..] == "2";
    assert LeadingDigits("2") == "2";
    ScanTail("v2", "2");
    ScanQuoted("v2", "v2\"");
  }

  lemma Value33()
    ensures DecimalValue("33") == 33
  {
    DecSnoc("3", '3');
    assert "3" + ['3'] == "33";
  }

  lemma Lead33()
    ensures LeadingDigits("33") == "33"
  {
    assert "33"[1..] == "3";
    assert "3"[1..] == [];
  }

  lemma AcceptsV33Quote()
    ensures ScanVersion("v33\"") == Scanned(33)
  {
    assert "v33"[1..] == "33";
    Lead33();
    Value33();
    ScanTail("v33", "33");
    ScanQuoted("v33", "v33\"");
  }

  lemma Value999()
    ensures DecimalValue("999") == 999
  {
    DecSnoc("9", '9');
    assert "9" + ['9'] == "99";
    DecSnoc("99", '9');
    assert "99" + ['9'] == "999";
  }

  lemma Lead999()
    ensures LeadingDigits("999") == "999"
  {
    assert "999"[1..] == "99";
    assert "99"[1..] == "9";
    assert "9"[1..] == [];
  }

  lemma AcceptsV999()
    ensures ScanVersion("v999") == Scanned(999)
  {
    assert "v999"[1..] == "999";
    Lead999();
    Value999();
    ScanTail("v999", "999");
  }

  lemma Value3333()
    ensures DecimalValue("3333") == 3333
  {
    Value33();
    DecSnoc("33", '3');
    assert "33" + ['3'] == "333";
    DecSnoc("333", '3');
    assert "333" + ['3'] == "3333";
  }

  lemma Lead3333()
    ensures LeadingDigits("3333") == "3333"
  {
    assert "3333"[1..] == "333";
    assert "333"[1..] == "33";
    Lead33();
  }

  lemma AcceptsV3333()
    ensures ScanVersion("v3333") == Scanned(3333)
  {
    assert "v3333"[1..] == "3333";
    Lead3333();
    Value3333();
    ScanTail("v3333", "3333");
  }

  lemma AcceptsV3333Quote()
    ensures ScanVersion("v3333\"") == Scanned(3333)
  {
    AcceptsV3333();
    ScanQuoted("v3333", "v3333\"");
  }

  /** The scan stops after the digits, so a segment that merely starts like
      a version is taken for one. */
  lemma AcceptsV2mod()
    ensures ScanVersion("v2mod") == Scanned(2)
  {
    assert "v2mod"[1..] == "2mod";
    assert "2mod"[1..] == "mod";
    assert LeadingDigits("mod") == [];
    assert LeadingDigits("2mod") == "2";
    ScanTail("v2mod", "2");
  }

  /** A sign is allowed between "v" and the digits. */
  lemma AcceptsNegative()
    ensures ScanVersion("v-1") == Scanned(-1)
  {
    assert "v-1"[1..] == "-1";
    assert "-1"[1..] == "1";
    assert LeadingDigits("1") == "1";
    assert SkipSpaces("-1") == "-1";
  }

  // ---- removeMajorVersionFromPath ----

  // The inputs and expected outputs of the table test, as written there.
  const InV6: GoString := "example.com/org/library/v6/pkg"
  const InV999: GoString := "example.com/org/library/v999/pkg"
  const PlainPath: GoString := "example.com/org/library/pkg"
  const InQuotedV3333: GoString := "\"example.com/org/library/v3333/subpkg\""
  const WantQuotedSubpkg: GoString := "\"example.com/org/library/subpkg\""
  const InQuotedV33: GoString := "\"example.com/org/library/v33\""
  const WantQuotedLibrary: GoString := "\"example.com/org/library\""
  const QuotedPlainPath: GoString := "\"example.com/org/library/pkg\""
  const InQuotedV2: GoString := "\"example.com/org/gomobile-v2mod/v2\""
  const WantQuotedGomobile: GoString := "\"example.com/org/gomobile-v2mod\""

  // The same paths by segment.
  const Library: seq<GoString> := ["example.com", "org", "library"]
  const QuotedLibrary: seq<GoString> := ["\"example.com", "org", "library"]
  const QuotedGomobile: seq<GoString> := ["\"example.com", "org", "gomobile-v2mod"]
  const Pkg: GoString := "pkg"
  const QuotedPkg: GoString := "pkg\""
  const QuotedSubpkg: GoString := "subpkg\""

  lemma LibraryOrdinary()
    ensures |Library| > 0 && SlashFree(Library) && AllRejected(Library)
  {
  }

  lemma QuotedLibraryOrdinary()
    ensures |QuotedLibrary| > 0 && SlashFree(QuotedLibrary) && AllRejected(QuotedLibrary)
  {
  }

  lemma QuotedGomobileOrdinary()
    ensures |QuotedGomobile| > 0 && SlashFree(QuotedGomobile) && AllRejected(QuotedGomobile)
  {
  }

  lemma LastSegmentsOrdinary()
    ensures SlashFree([Pkg]) && AllRejected([Pkg])
    ensures SlashFree([QuotedPkg]) && AllRejected([QuotedPkg])
    ensures SlashFree([QuotedSubpkg]) && AllRejected([QuotedSubpkg])
  {
  }

  lemma OrgLibraryPath()
    ensures Join(["org", "library"]) == "org/library"
  {
    JoinCons("org", ["library"]);
  }

  lemma LibraryPath()
    ensures Join(Library) == "example.com/org/library"
  {
    OrgLibraryPath();
    JoinCons("example.com", ["org", "library"]);
    assert Library == ["example.com"] + ["org", "library"];
  }

  lemma QuotedLibraryPath()
    ensures Join(QuotedLibrary) == "\"example.com/org/library"
  {
    OrgLibraryPath();
    JoinCons("\"example.com", ["org", "library"]);
    assert QuotedLibrary == ["\"example.com"] + ["org", "library"];
  }

  lemma QuotedGomobilePath()
    ensures Join(QuotedGomobile) == "\"example.com/org/gomobile-v2mod"
  {
    OrgGomobilePath();
    JoinCons("\"example.com", ["org", "gomobile-v2mod"]);
    assert QuotedGomobile == ["\"example.com"] + ["org", "gomobile-v2mod"];
  }

  lemma OrgGomobilePath()
    ensures Join(["org", "gomobile-v2mod"]) == "org/gomobile-v2mod"
  {
    JoinCons("org", ["gomobile-v2mod"]);
    assert "org" + [Slash] + "gomobile-v2mod" == "org/gomobile-v2mod";
  }

  /** The join of the segments with `v` inserted before the last one. */
  lemma JoinInner(pre: seq<GoString>, v: GoString, last: GoString)
    requires |pre| > 0
    ensures Join(pre + [v] + [last]) == Join(pre) + [Slash] + v + [Slash] + last
  {
    JoinSnoc(pre, v);
    JoinSnoc(pre + [v], last);
  }

  lemma InV6Segments()
    ensures Join(Library + ["v6"] + [Pkg]) == InV6
  {
    LibraryPath();
    JoinInner(Library, "v6", Pkg);
  }

  lemma InV999Segments()
    ensures Join(Library + ["v999"] + [Pkg]) == InV999
  {
    LibraryPath();
    JoinInner(Library, "v999", Pkg);
  }

  lemma PlainPathSegments()
    ensures Join(Library + [Pkg]) == PlainPath
  {
    LibraryPath();
    JoinSnoc(Library, Pkg);
  }

  lemma InQuotedV3333Segments()
    ensures Join(QuotedLibrary + ["v3333"] + [QuotedSubpkg]) == InQuotedV3333
  {
    QuotedLibraryPath();
    JoinInner(QuotedLibrary, "v3333", QuotedSubpkg);
  }

  lemma WantQuotedSubpkgSegments()
    ensures Join(QuotedLibrary + [QuotedSubpkg]) == WantQuotedSubpkg
  {
    QuotedLibraryPath();
    JoinSnoc(QuotedLibrary, QuotedSubpkg);
  }

  lemma InQuotedV33Segments()
    ensures Join(QuotedLibrary + ["v33\""]) == InQuotedV33
    ensures Join(QuotedLibrary) + [Quote] == WantQuotedLibrary
  {
    QuotedLibraryPath();
    JoinSnoc(QuotedLibrary, "v33\"");
  }

  lemma QuotedPlainPathSegments()
    ensures Join(QuotedLibrary + [QuotedPkg]) == QuotedPlainPath
  {
    QuotedLibraryPath();
    JoinSnoc(QuotedLibrary, QuotedPkg);
  }

  lemma InQuotedV2Segments()
    ensures Join(QuotedGomobile + ["v2\""]) == InQuotedV2
    ensures Join(QuotedGomobile) + [Quote] == WantQuotedGomobile
  {
    QuotedGomobilePath();
    JoinSnoc(QuotedGomobile, "v2\"");
  }

  // By segment: what the general shape lemmas give for each test path.

  lemma StripsV6Segments()
    ensures Strip(Join(Library + ["v6"] + [Pkg])) == Stripped(Join(Library + [Pkg]), 3)
  {
    AcceptsV6();
    LibraryOrdinary();
    LastSegmentsOrdinary();
    DropsInnerVersion(Library, "v6", [Pkg]);
  }

  lemma StripsV999Segments()
    ensures Strip(Join(Library + ["v999"] + [Pkg])) == Stripped(Join(Library + [Pkg]), 5)
  {
    AcceptsV999();
    LibraryOrdinary();
    LastSegmentsOrdinary();
    DropsInnerVersion(Library, "v999", [Pkg]);
  }

  lemma KeepsPlainSegments()
    ensures Strip(Join(Library + [Pkg])) == Stripped(Join(Library + [Pkg]), 0)
  {
    LibraryOrdinary();
    LastSegmentsOrdinary();
    AllRejectedAppend(Library, [Pkg]);
    KeepsUnversioned(Library + [Pkg]);
  }

  lemma StripsQuotedV3333Segments()
    ensures Strip(Join(QuotedLibrary + ["v3333"] + [QuotedSubpkg]))
              == Stripped(Join(QuotedLibrary + [QuotedSubpkg]), 6)
  {
    AcceptsV3333();
    QuotedLibraryOrdinary();
    LastSegmentsOrdinary();
    DropsInnerVersion(QuotedLibrary, "v3333", [QuotedSubpkg]);
  }

  lemma StripsQuotedFinalV33Segments()
    ensures Strip(Join(QuotedLibrary + ["v33\""])) == Stripped(Join(QuotedLibrary) + [Quote], 4)
  {
    AcceptsV33Quote();
    QuotedLibraryOrdinary();
    DropsFinalVersion(QuotedLibrary, "v33\"");
  }

  lemma KeepsQuotedPlainSegments()
    ensures Strip(Join(QuotedLibrary + [QuotedPkg])) == Stripped(Join(QuotedLibrary + [QuotedPkg]), 0)
  {
    QuotedLibraryOrdinary();
    LastSegmentsOrdinary();
    AllRejectedAppend(QuotedLibrary, [QuotedPkg]);
    KeepsUnversioned(QuotedLibrary + [QuotedPkg]);
  }

  lemma StripsQuotedFinalV2Segments()
    ensures Strip(Join(QuotedGomobile + ["v2\""])) == Stripped(Join(QuotedGomobile) + [Quote], 3)
  {
    AcceptsV2Quote();
    QuotedGomobileOrdinary();
    DropsFinalVersion(QuotedGomobile, "v2\"");
  }

  // The table test's rows, on the strings as the test writes them.

  lemma StripsV6()
    ensures Strip(InV6) == Stripped(PlainPath, 3)
  {
    StripsV6Segments();
    InV6Segments();
    PlainPathSegments();
  }

  lemma StripsV999()
    ensures Strip(InV999) == Stripped(PlainPath, 5)
  {
    StripsV999Segments();
    InV999Segments();
    PlainPathSegments();
  }

  lemma KeepsUnversionedPath()
    ensures Strip(PlainPath) == Stripped(PlainPath, 0)
  {
    KeepsPlainSegments();
    PlainPathSegments();
  }

  lemma StripsQuotedV3333()
    ensures Strip(InQuotedV3333) == Stripped(WantQuotedSubpkg, 6)
  {
    StripsQuotedV3333Segments();
    InQuotedV3333Segments();
    WantQuotedSubpkgSegments();
  }

  lemma StripsQuotedFinalV33()
    ensures Strip(InQuotedV33) == Stripped(WantQuotedLibrary, 4)
  {
    StripsQuotedFinalV33Segments();
    InQuotedV33Segments();
  }

  lemma KeepsUnversionedQuoted()
    ensures Strip(QuotedPlainPath) == Stripped(QuotedPlainPath, 0)
  {
    KeepsQuotedPlainSegments();
    QuotedPlainPathSegments();
  }

  /** Only the whole segment `v2"` goes; "gomobile-v2mod" does not start with
      "v" and stays. */
  lemma StripsQuotedFinalV2()
    ensures Strip(InQuotedV2) == Stripped(WantQuotedGomobile, 3)
  {
    StripsQuotedFinalV2Segments();
    InQuotedV2Segments();
  }

  // ---- a raw string import literal ----

  /** Go also allows an import path written as a raw string literal. The code
      looks only for a closing double quote, so a final version segment
      written `` v2` `` is dropped together with the closing backquote, and
      the literal comes back unterminated. */
  const InRawV2: GoString := "`example.com/org/library/v2`"
  const RawLibraryOpen: GoString := "`example.com/org/library"
  const RawLibrary: seq<GoString> := ["`example.com", "org", "library"]
  const RawV2: GoString := "v2`"

  lemma AcceptsRawV2()
    ensures ScanVersion(RawV2) == Scanned(2)
  {
    assert RawV2[1..] == "2`";
    assert LeadingDigits("2`") == "2";
    ScanTail(RawV2, "2");
  }

  lemma RawLibraryOrdinary()
    ensures |RawLibrary| > 0 && SlashFree(RawLibrary) && AllRejected(RawLibrary)
    ensures !EndsWithQuote(RawV2)
  {
  }

  lemma RawLibraryPath()
    ensures Join(RawLibrary) == RawLibraryOpen
    ensures Join(RawLibrary + [RawV2]) == InRawV2
  {
    OrgLibraryPath();
    JoinCons("`example.com", ["org", "library"]);
    assert RawLibrary == ["`example.com"] + ["org", "library"];
    JoinSnoc(RawLibrary, RawV2);
  }

  lemma StripsRawSegments()
    ensures Strip(Join(RawLibrary + [RawV2])) == Stripped(Join(RawLibrary), 4)
  {
    AcceptsRawV2();
    RawLibraryOrdinary();
    DropsFinalVersion(RawLibrary, RawV2);
  }

  /** `` `example.com/org/library/v2` `` becomes `` `example.com/org/library ``
      with count 4: the closing backquote is lost. */
  lemma RawLiteralLosesBackquote()
    ensures Strip(InRawV2) == Stripped(RawLibraryOpen, 4)
    ensures InRawV2[|InRawV2| - 1] == '`' && RawLibraryOpen[|RawLibraryOpen| - 1] != '`'
  {
    StripsRawSegments();
    RawLibraryPath();
  }
}
