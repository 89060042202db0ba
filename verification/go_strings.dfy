/** Go strings as the byte sequences they are, and the two operations of
    Go's `strings` package that the import-path rewrite is built from:
    splitting on "/" and joining with "/". */
module GoStrings {

  /** One byte of a Go string, written as the char with the same code so that
      ASCII literals read as they do in Go. `len` on a Go string counts these. */
  type Byte = c: char | c as int < 0x100 witness 'v'

  type GoString = seq<Byte>

  const Slash: Byte := '/'
  const Quote: Byte := '"'

  /** `strings.HasSuffix(s, "\"")`. */
  predicate EndsWithQuote(s: GoString) {
    |s| > 0 && s[|s| - 1] == Quote
  }

  /** True iff no part contains the separator. */
  predicate SlashFree(parts: seq<GoString>) {
    forall i :: 0 <= i < |parts| ==> Slash !in parts[i]
  }

  /** Sum of the lengths of the parts. */
  function TotalLen(parts: seq<GoString>): (n: nat)
    ensures |parts| > 0 ==> n >= |parts[0]|
  {
    if |parts| == 0 then 0 else |parts[0]| + TotalLen(parts[1..])
  }

  /** `strings.Split(s, "/")`: the maximal slash-free runs of `s`, in order.
      It never returns an empty sequence: `Split("") == [""]`, and every
      separator adds exactly one part. */
  function Split(s: GoString): (parts: seq<GoString>)
    ensures |parts| >= 1
    ensures SlashFree(parts)
    ensures TotalLen(parts) + |parts| - 1 == |s|
    decreases |s|
  {
    if |s| == 0 then [[]]
    else if s[0] == Slash then [[]] + Split(s[1..])
    else
      var rest := Split(s[1..]);
      assert TotalLen([[s[0]] + rest[0]] + rest[1..]) == 1 + TotalLen(rest);
      [[s[0]] + rest[0]] + rest[1..]
  }

  /** `strings.Join(parts, "/")`. Joining nothing gives the empty string;
      otherwise the join starts with the first part and is as long as the
      parts plus one separator between each two. */
  function Join(parts: seq<GoString>): (s: GoString)
    ensures |parts| == 0 ==> s == []
    ensures |parts| > 0 ==> parts[0] <= s
    ensures |parts| > 0 ==> |s| == TotalLen(parts) + |parts| - 1
  {
    if |parts| == 0 then []
    else if |parts| == 1 then parts[0]
    else parts[0] + [Slash] + Join(parts[1..])
  }

  /** The first part is where the string starts; it is empty only when the
      string is empty or starts with a separator. */
  lemma SplitFirst(s: GoString)
    ensures Split(s)[0] <= s
    ensures |s| > 0 && s[0] != Slash ==> |Split(s)[0]| > 0
  {
  }

  /** Joining the parts of a split gives back the string. */
  lemma {:induction false} JoinSplit(s: GoString)
    ensures Join(Split(s)) == s
    decreases |s|
  {
    if |s| > 0 {
      JoinSplit(s[1..]);
      if s[0] == Slash {
        JoinAfterEmptyPart(Split(s[1..]));
      } else {
        JoinIntoFirstPart(s[0], Split(s[1..]));
      }
      assert s == [s[0]] + s[1..];
    }
  }

  /** Step of JoinSplit when the string starts with a separator. */
  lemma JoinAfterEmptyPart(rest: seq<GoString>)
    requires |rest| > 0
    ensures Join([[]] + rest) == [Slash] + Join(rest)
  {
    var parts := [[]] + rest;
    assert parts[0] == [] && parts[1..] == rest;
  }

  /** Step of JoinSplit when the string starts with a byte of its first part. */
  lemma JoinIntoFirstPart(b: Byte, rest: seq<GoString>)
    requires |rest| > 0
    ensures Join([[b] + rest[0]] + rest[1..]) == [b] + Join(rest)
  {
    if |rest| == 1 {
      assert [[b] + rest[0]] + rest[1..] == [[b] + rest[0]];
      assert rest == [rest[0]];
    } else {
      JoinIntoFirstOfMany(b, rest);
    }
  }

  lemma JoinIntoFirstOfMany(b: Byte, rest: seq<GoString>)
    requires |rest| > 1
    ensures Join([[b] + rest[0]] + rest[1..]) == [b] + Join(rest)
  {
    var tail := rest[1..];
    JoinCons([b] + rest[0], tail);
    JoinCons(rest[0], tail);
    assert rest == [rest[0]] + tail;
    ConsSeparated(b, rest[0], Join(tail));
  }

  lemma ConsSeparated(b: Byte, p: GoString, t: GoString)
    ensures ([b] + p) + [Slash] + t == [b] + (p + [Slash] + t)
  {
  }

  /** Joining a part in front of at least one more. */
  lemma JoinCons(p: GoString, ps: seq<GoString>)
    requires |ps| > 0
    ensures Join([p] + ps) == p + [Slash] + Join(ps)
  {
    assert ([p] + ps)[1..] == ps;
  }

  /** A slash-free string is a single part. */
  lemma {:induction false} SplitSlashFree(p: GoString)
    requires Slash !in p
    ensures Split(p) == [p]
    decreases |p|
  {
    if |p| > 0 {
      assert Slash !in p[1..] by {
        forall k | 0 <= k < |p[1..]| ensures p[1..][k] != Slash {
          assert p[1..][k] == p[k + 1];
        }
      }
      SplitSlashFree(p[1..]);
      assert p == [p[0]] + p[1..];
    }
  }

  /** A slash-free prefix followed by a separator is split off as one part. */
  lemma {:induction false} SplitAfterPrefix(p: GoString, t: GoString)
    requires Slash !in p
    ensures Split(p + [Slash] + t) == [p] + Split(t)
    decreases |p|
  {
    if |p| == 0 {
      assert p + [Slash] + t == [Slash] + t;
      assert ([Slash] + t)[1..] == t;
    } else {
      var s := p + [Slash] + t;
      assert s[1..] == p[1..] + [Slash] + t;
      assert Slash !in p[1..] by {
        forall k | 0 <= k < |p[1..]| ensures p[1..][k] != Slash {
          assert p[1..][k] == p[k + 1];
        }
      }
      SplitAfterPrefix(p[1..], t);
      assert [p[0]] + p[1..] == p;
    }
  }

  /** Splitting a join of slash-free parts gives back the parts. */
  lemma {:induction false} SplitJoin(parts: seq<GoString>)
    requires |parts| > 0
    requires SlashFree(parts)
    ensures Split(Join(parts)) == parts
    decreases |parts|
  {
    if |parts| == 1 {
      SplitSlashFree(parts[0]);
    } else {
      SplitJoin(parts[1..]);
      SplitAfterPrefix(parts[0], Join(parts[1..]));
      assert [parts[0]] + parts[1..] == parts;
    }
  }

  /** Appending a non-separator byte extends the last part and nothing else. */
  lemma {:induction false} SplitSnoc(s: GoString, c: Byte)
    requires c != Slash
    ensures var parts := Split(s);
            Split(s + [c]) == parts[..|parts| - 1] + [parts[|parts| - 1] + [c]]
    decreases |s|
  {
    var sc := s + [c];
    if |s| == 0 {
      assert sc == [c];
      SplitSlashFree(sc);
    } else {
      assert sc[0] == s[0];
      assert sc[1..] == s[1..] + [c];
      SplitSnoc(s[1..], c);
      if s[0] == Slash {
        SnocAfterEmptyPart(Split(s[1..]), c);
      } else {
        SnocIntoFirstPart(s[0], Split(s[1..]), c);
      }
    }
  }

  /** Step of SplitSnoc when the string starts with a separator. */
  lemma SnocAfterEmptyPart(rest: seq<GoString>, c: Byte)
    requires |rest| > 0
    ensures var parts := [[]] + rest;
            [[]] + (rest[..|rest| - 1] + [rest[|rest| - 1] + [c]])
              == parts[..|parts| - 1] + [parts[|parts| - 1] + [c]]
  {
    var parts := [[]] + rest;
    assert parts[..|parts| - 1] == [[]] + rest[..|rest| - 1];
  }

  /** Step of SplitSnoc when the string starts with a byte of its first part. */
  lemma SnocIntoFirstPart(b: Byte, rest: seq<GoString>, c: Byte)
    requires |rest| > 0
    ensures var rest' := rest[..|rest| - 1] + [rest[|rest| - 1] + [c]];
            var parts := [[b] + rest[0]] + rest[1..];
            [[b] + rest'[0]] + rest'[1..] == parts[..|parts| - 1] + [parts[|parts| - 1] + [c]]
  {
    var n := |rest|;
    var rest' := rest[..n - 1] + [rest[n - 1] + [c]];
    if n == 1 {
      assert [b] + (rest[0] + [c]) == ([b] + rest[0]) + [c];
    } else {
      assert rest'[0] == rest[0];
      assert rest'[1..] == rest[1..n - 1] + [rest[n - 1] + [c]];
      var parts := [[b] + rest[0]] + rest[1..];
      assert parts[..n - 1] == [[b] + rest[0]] + rest[1..n - 1];
    }
  }

  /** Joining one more part appends a separator and the part. */
  lemma {:induction false} JoinSnoc(parts: seq<GoString>, p: GoString)
    requires |parts| > 0
    ensures Join(parts + [p]) == Join(parts) + [Slash] + p
    decreases |parts|
  {
    if |parts| == 1 {
      assert (parts + [p])[1..] == [p];
    } else {
      assert (parts + [p])[1..] == parts[1..] + [p];
      JoinSnoc(parts[1..], p);
    }
  }

  /** Joining two non-empty lists of parts puts one separator between the
      two joins. */
  lemma {:induction false} JoinAppend(a: seq<GoString>, b: seq<GoString>)
    requires |a| > 0 && |b| > 0
    ensures Join(a + b) == Join(a) + [Slash] + Join(b)
    decreases |a|
  {
    if |a| == 1 {
      assert a + b == [a[0]] + b;
      JoinCons(a[0], b);
    } else {
      assert a + b == [a[0]] + (a[1..] + b);
      JoinCons(a[0], a[1..] + b);
      JoinAppend(a[1..], b);
      JoinCons(a[0], a[1..]);
      assert [a[0]] + a[1..] == a;
    }
  }

  /** The sum of lengths distributes over concatenation. */
  lemma {:induction false} TotalLenAppend(a: seq<GoString>, b: seq<GoString>)
    ensures TotalLen(a + b) == TotalLen(a) + TotalLen(b)
    decreases |a|
  {
    if |a| == 0 {
      assert a + b == b;
    } else {
      assert (a + b)[1..] == a[1..] + b;
      TotalLenAppend(a[1..], b);
    }
  }
}
