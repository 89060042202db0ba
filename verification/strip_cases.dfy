/** What `removeMajorVersionFromPath` does to the path shapes its callers
    meet: a module path with one major-version segment in the middle, or at
    the end, possibly carrying the closing quote of an import literal. */
module StripCases {
  import opened GoStrings
  import opened MajorVersion
  import opened PathStrip

  /** No segment is a major-version segment. */
  predicate AllRejected(ps: seq<GoString>) {
    forall i :: 0 <= i < |ps| ==> !IsVNPart(ps[i])
  }

  /** Stripping a path given by its segments. */
  lemma StripOfParts(parts: seq<GoString>)
    requires |parts| > 0 && SlashFree(parts)
    ensures var out := Join(Kept(parts)) + QuoteIf(RestoresQuote(parts));
            Strip(Join(parts)) == Stripped(out, |Join(parts)| - |out|)
  {
    SplitJoin(parts);
  }

  /** A version segment between two runs of ordinary segments is cut out
      together with one separator. */
  lemma DropsInnerVersion(pre: seq<GoString>, v: GoString, post: seq<GoString>)
    requires |pre| > 0 && |post| > 0
    requires SlashFree(pre) && SlashFree(post) && Slash !in v
    requires AllRejected(pre) && AllRejected(post)
    requires IsVNPart(v)
    ensures Strip(Join(pre + [v] + post)) == Stripped(Join(pre + post), |v| + 1)
  {
    var parts := pre + [v] + post;
    PartsSlashFree(pre, v, post);
    StripOfParts(parts);
    KeptAround(pre, v, post);
    assert parts[|parts| - 1] == post[|post| - 1];
    var out := Join(pre + post);
    assert out + QuoteIf(false) == out;
    JoinAppend(pre + [v], post);
    JoinSnoc(pre, v);
    JoinAppend(pre, post);
  }

  /** A version segment at the end is cut out with the separator before it;
      a closing quote it carried is put back. */
  lemma DropsFinalVersion(pre: seq<GoString>, v: GoString)
    requires |pre| > 0
    requires SlashFree(pre) && Slash !in v
    requires AllRejected(pre)
    requires IsVNPart(v)
    ensures var q := QuoteIf(EndsWithQuote(v));
            Strip(Join(pre + [v])) == Stripped(Join(pre) + q, |v| + 1 - |q|)
  {
    var parts := pre + [v];
    PartsSlashFree(pre, v, []);
    assert pre + [v] + [] == parts;
    KeptAround(pre, v, []);
    assert pre + [] == pre;
    assert parts[|parts| - 1] == v;
    var q := QuoteIf(EndsWithQuote(v));
    var out := Join(pre) + q;
    assert Join(Kept(parts)) + QuoteIf(RestoresQuote(parts)) == out;
    StripOfParts(parts);
    JoinSnoc(pre, v);
    assert |Join(parts)| - |out| == |v| + 1 - |q|;
  }

  /** A path without a version segment comes back unchanged. */
  lemma KeepsUnversioned(parts: seq<GoString>)
    requires |parts| > 0 && SlashFree(parts)
    requires AllRejected(parts)
    ensures Strip(Join(parts)) == Stripped(Join(parts), 0)
  {
    SplitJoin(parts);
    assert !HasVersionPart(parts);
  }

  /** Two runs of ordinary slash-free segments make one. */
  lemma AllRejectedAppend(a: seq<GoString>, b: seq<GoString>)
    requires SlashFree(a) && SlashFree(b)
    requires AllRejected(a) && AllRejected(b)
    ensures SlashFree(a + b) && AllRejected(a + b)
  {
    var ab := a + b;
    forall i | 0 <= i < |ab| ensures Slash !in ab[i] && !IsVNPart(ab[i]) {
      if i < |a| {
        assert ab[i] == a[i];
      } else {
        assert ab[i] == b[i - |a|];
      }
    }
  }

  lemma PartsSlashFree(pre: seq<GoString>, v: GoString, post: seq<GoString>)
    requires SlashFree(pre) && SlashFree(post) && Slash !in v
    ensures SlashFree(pre + [v] + post)
  {
    var parts := pre + [v] + post;
    forall i | 0 <= i < |parts| ensures Slash !in parts[i] {
      if i < |pre| {
        assert parts[i] == pre[i];
      } else if i > |pre| {
        assert parts[i] == post[i - |pre| - 1];
      }
    }
  }

  /** Filtering keeps every ordinary segment and drops the version one. */
  lemma KeptAround(pre: seq<GoString>, v: GoString, post: seq<GoString>)
    requires AllRejected(pre) && AllRejected(post)
    requires IsVNPart(v)
    ensures Kept(pre + [v] + post) == pre + post
  {
    var a := pre + [v];
    KeptAppend(pre, [v]);
    KeptSingle(v);
    RejectedKept(pre);
    assert Kept(a) == pre;
    KeptAppend(a, post);
    RejectedKept(post);
  }

  /** Segments that are all ordinary are all kept. */
  lemma RejectedKept(ps: seq<GoString>)
    requires AllRejected(ps)
    ensures Kept(ps) == ps
  {
    KeptMeasure(ps);
    assert !HasVersionPart(ps);
  }
}
