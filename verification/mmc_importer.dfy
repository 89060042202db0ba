/** `mmcImporter.Import`: try the standard importer first; only when it fails,
    load the package's sources, parse each file, rewrite every import literal
    with `removeMajorVersionFromPath`, and type-check the rewritten files.
    The standard importer, the source loader, the parser and the type checker
    are foreign code whose behaviour is not visible here; they are parameters
    of the model (an `Env`), and each run records which of them it called. */
module MmcImporter {
  import opened GoStrings
  import opened MajorVersion
  import opened PathStrip

  /** The result of a collaborator: a value or an error. The type checker can
      return a partial package together with its error; the model keeps only
      the error in that case. */
  datatype Outcome<T, E> = Ok(value: T) | Err(error: E)

  /** An import declaration; `path` is the raw literal `Path.Value`, quotes
      included. */
  datatype ImportSpec = ImportSpec(path: GoString)

  /** A parsed file: its imports in source order, and everything else the
      parser produced, which the rewrite never touches. */
  datatype AstFile<R> = AstFile(imports: seq<ImportSpec>, rest: R)

  /** One entry of the loaded sources: a file path and its contents. */
  datatype SourceFile = SourceFile(path: GoString, contents: GoString)

  /** The collaborators of `Import`: the standard importer, the source loader
      (`loadPackageSources`, whose map the loop visits in some order, given
      here as a sequence), the parser and the type checker. */
  datatype Env<!R, Pkg, !E> = Env(
    baseline: GoString -> Outcome<Pkg, E>,
    load: GoString -> Outcome<seq<SourceFile>, E>,
    parse: SourceFile -> Outcome<AstFile<R>, E>,
    check: (GoString, seq<AstFile<R>>) -> Outcome<Pkg, E>)

  /** Which collaborator a run called, in order. */
  datatype Call<R> = QueryBaseline | LoadSources | ParseFiles | CheckFiles(files: seq<AstFile<R>>)

  datatype ImportRun<R, Pkg, E> = ImportRun(result: Outcome<Pkg, E>, calls: seq<Call<R>>)

  // ---- the import-literal rewrite (mmc_importer.go:69-78) ----

  /** Every import literal of the file replaced by its stripped form; the
      number and order of imports and the rest of the file are unchanged. */
  function RewriteImports<R>(f: AstFile<R>): (g: AstFile<R>)
    ensures |g.imports| == |f.imports| && g.rest == f.rest
    ensures forall j :: 0 <= j < |f.imports| ==> g.imports[j].path == Strip(f.imports[j].path).path
  {
    AstFile(seq(|f.imports|, j requires 0 <= j < |f.imports| => ImportSpec(Strip(f.imports[j].path).path)), f.rest)
  }

  /** Every import literal of the file is left alone by a further strip. */
  predicate FileStripped<R>(f: AstFile<R>) {
    forall j :: 0 <= j < |f.imports| ==> Strip(f.imports[j].path) == Stripped(f.imports[j].path, 0)
  }

  predicate AllStripped<R>(files: seq<AstFile<R>>) {
    forall i :: 0 <= i < |files| ==> FileStripped(files[i])
  }

  /** After the rewrite no import literal has a version segment left. */
  lemma RewriteStrips<R>(f: AstFile<R>)
    ensures FileStripped(RewriteImports(f))
  {
    var g := RewriteImports(f);
    forall j | 0 <= j < |g.imports| ensures Strip(g.imports[j].path) == Stripped(g.imports[j].path, 0) {
      StripIdempotent(f.imports[j].path);
    }
  }

  /** Rewriting twice is rewriting once. */
  lemma RewriteIdempotent<R>(f: AstFile<R>)
    ensures RewriteImports(RewriteImports(f)) == RewriteImports(f)
  {
    var g := RewriteImports(f);
    RewriteStrips(f);
    RewriteKeepsStripped(g);
  }

  /** A file whose imports have no version segment is left exactly as it is. */
  lemma RewriteKeepsStripped<R>(f: AstFile<R>)
    requires FileStripped(f)
    ensures RewriteImports(f) == f
  {
    var g := RewriteImports(f);
    forall j | 0 <= j < |f.imports| ensures g.imports[j] == f.imports[j] {
      assert Strip(f.imports[j].path) == Stripped(f.imports[j].path, 0);
    }
    assert g.imports == f.imports;
  }

  /** A file is a fixed point of the rewrite exactly when none of its import
      literals has a version segment. */
  lemma RewriteFixedIff<R>(f: AstFile<R>)
    ensures RewriteImports(f) == f <==> forall j :: 0 <= j < |f.imports| ==> !HasVersionPart(Split(f.imports[j].path))
  {
    if RewriteImports(f) == f {
      forall j | 0 <= j < |f.imports| ensures !HasVersionPart(Split(f.imports[j].path)) {
        assert RewriteImports(f).imports[j] == f.imports[j];
      }
    } else if forall j :: 0 <= j < |f.imports| ==> !HasVersionPart(Split(f.imports[j].path)) {
      RewriteKeepsStripped(f);
    }
  }

  /** Import literals written as double-quoted Go string literals stay
      double-quoted. (A raw string literal in backquotes does not: see
      `Scenarios.RawLiteralLosesBackquote`.) */
  lemma RewriteKeepsQuoted<R>(f: AstFile<R>)
    requires forall j :: 0 <= j < |f.imports| ==> IsQuotedLiteral(f.imports[j].path)
    ensures var g := RewriteImports(f);
            forall j :: 0 <= j < |g.imports| ==> IsQuotedLiteral(g.imports[j].path)
  {
    forall j | 0 <= j < |f.imports| ensures IsQuotedLiteral(Strip(f.imports[j].path).path) {
      StripKeepsQuotedLiteral(f.imports[j].path);
    }
  }

  /** The loop of mmc_importer.go:69-78, literal by literal, calling the method form
      of `removeMajorVersionFromPath` and dropping its count. */
  method RewriteFileImports<R>(f: AstFile<R>) returns (g: AstFile<R>)
    ensures g == RewriteImports(f)
  {
    var imports := f.imports;
    var j := 0;
    while j < |imports|
      invariant 0 <= j <= |imports| && |imports| == |f.imports|
      invariant forall k :: 0 <= k < j ==> imports[k].path == Strip(f.imports[k].path).path
      invariant forall k :: j <= k < |imports| ==> imports[k] == f.imports[k]
    {
      var r, _ := RemoveMajorVersionFromPath(imports[j].path);
      imports := imports[j := ImportSpec(r)];
      j := j + 1;
    }
    g := AstFile(imports, f.rest);
    assert g.imports == RewriteImports(f).imports;
  }

  // ---- parsing every source (mmc_importer.go:59-81) ----

  /** Parse the sources in order, rewriting each parsed file; the first parse
      error ends the run with that error. */
  function ParseAndRewrite<R, E>(srcs: seq<SourceFile>, parse: SourceFile -> Outcome<AstFile<R>, E>)
    : (r: Outcome<seq<AstFile<R>>, E>)
    ensures r.Ok? <==> forall i :: 0 <= i < |srcs| ==> parse(srcs[i]).Ok?
    ensures r.Ok? ==> |r.value| == |srcs|
                      && forall i :: 0 <= i < |srcs| ==> r.value[i] == RewriteImports(parse(srcs[i]).value)
    ensures r.Err? ==> exists i :: 0 <= i < |srcs| && parse(srcs[i]) == Err(r.error)
                                   && forall k :: 0 <= k < i ==> parse(srcs[k]).Ok?
    decreases |srcs|
  {
    if |srcs| == 0 then Ok([])
    else
      match parse(srcs[0])
      case Err(e) => Err(e)
      case Ok(f) =>
        var rest := ParseAndRewrite(srcs[1..], parse);
        if rest.Err? then
          assert forall k :: 1 <= k <= |srcs[1..]| ==> srcs[1..][k - 1] == srcs[k];
          Err(rest.error)
        else
          Ok([RewriteImports(f)] + rest.value)
  }

  /** The same loop as a method, appending to `astFiles` as the source does. */
  method ParseSources<R, E>(srcs: seq<SourceFile>, parse: SourceFile -> Outcome<AstFile<R>, E>)
    returns (r: Outcome<seq<AstFile<R>>, E>)
    ensures r == ParseAndRewrite(srcs, parse)
  {
    var astFiles: seq<AstFile<R>> := [];
    var i := 0;
    while i < |srcs|
      invariant 0 <= i <= |srcs|
      invariant forall k :: 0 <= k < i ==> parse(srcs[k]).Ok?
      invariant astFiles == seq(i, k requires 0 <= k < i => RewriteImports(parse(srcs[k]).value))
    {
      var parsed := parse(srcs[i]);
      if parsed.Err? {
        ParseStopsAt(srcs, parse, i);
        return Err(parsed.error);
      }
      var g := RewriteFileImports(parsed.value);
      astFiles := astFiles + [g];
      i := i + 1;
    }
    ParseSucceeds(srcs, parse);
    r := Ok(astFiles);
  }

  /** When every source parses, the pass yields the rewritten files in order. */
  lemma ParseSucceeds<R, E>(srcs: seq<SourceFile>, parse: SourceFile -> Outcome<AstFile<R>, E>)
    requires forall i :: 0 <= i < |srcs| ==> parse(srcs[i]).Ok?
    ensures ParseAndRewrite(srcs, parse)
              == Ok(seq(|srcs|, i requires 0 <= i < |srcs| => RewriteImports(parse(srcs[i]).value)))
  {
    var files := seq(|srcs|, i requires 0 <= i < |srcs| => RewriteImports(parse(srcs[i]).value));
    assert ParseAndRewrite(srcs, parse).value == files;
  }

  /** The function form ends at the first failing source with its error. */
  lemma ParseStopsAt<R, E>(srcs: seq<SourceFile>, parse: SourceFile -> Outcome<AstFile<R>, E>, i: nat)
    requires i < |srcs| && parse(srcs[i]).Err?
    requires forall k :: 0 <= k < i ==> parse(srcs[k]).Ok?
    ensures ParseAndRewrite(srcs, parse) == Err(parse(srcs[i]).error)
  {
    var r := ParseAndRewrite(srcs, parse);
    assert r.Err?;
    var j :| 0 <= j < |srcs| && parse(srcs[j]) == Err(r.error) && forall k :: 0 <= k < j ==> parse(srcs[k]).Ok?;
    assert j == i;
  }

  // ---- the whole of Import (mmc_importer.go:41-88) ----

  /** The standard importer first; on success its package is the answer and
      nothing else runs. Otherwise load, parse and rewrite, then check. */
  function Import<R, Pkg, E>(path: GoString, env: Env<R, Pkg, E>): (run: ImportRun<R, Pkg, E>)
    ensures |run.calls| > 0 && run.calls[0] == QueryBaseline
    ensures env.baseline(path).Ok? ==> run == ImportRun(env.baseline(path), [QueryBaseline])
    ensures env.baseline(path).Err? ==> |run.calls| > 1 && run.calls[1] == LoadSources
    ensures forall k :: 0 <= k < |run.calls| && run.calls[k].CheckFiles? ==> AllStripped(run.calls[k].files)
  {
    var base := env.baseline(path);
    if base.Ok? then ImportRun(base, [QueryBaseline])
    else
      var srcs := env.load(path);
      if srcs.Err? then ImportRun(Err(srcs.error), [QueryBaseline, LoadSources])
      else
        var parsed := ParseAndRewrite(srcs.value, env.parse);
        if parsed.Err? then ImportRun(Err(parsed.error), [QueryBaseline, LoadSources, ParseFiles])
        else
          ParsedStripped(srcs.value, env.parse);
          ImportRun(env.check(path, parsed.value),
                    [QueryBaseline, LoadSources, ParseFiles, CheckFiles(parsed.value)])
  }

  /** Everything the parse-and-rewrite pass hands on is fully stripped. */
  lemma ParsedStripped<R, E>(srcs: seq<SourceFile>, parse: SourceFile -> Outcome<AstFile<R>, E>)
    requires ParseAndRewrite(srcs, parse).Ok?
    ensures AllStripped(ParseAndRewrite(srcs, parse).value)
  {
    var files := ParseAndRewrite(srcs, parse).value;
    forall i | 0 <= i < |files| ensures FileStripped(files[i]) {
      RewriteStrips(parse(srcs[i]).value);
    }
  }

  /** The fallback runs exactly when the standard importer fails. */
  lemma BaselineFirst<R, Pkg, E>(path: GoString, env: Env<R, Pkg, E>)
    ensures LoadSources in Import(path, env).calls <==> env.baseline(path).Err?
  {
  }

  /** When the fallback reaches the type checker, it checks the parsed files in
      the loader's order, each with its import literals stripped, and the
      type checker's verdict is the result. */
  lemma FallbackChecksRewrittenFiles<R, Pkg, E>(path: GoString, env: Env<R, Pkg, E>)
    requires env.baseline(path).Err? && env.load(path).Ok?
    requires forall i :: 0 <= i < |env.load(path).value| ==> env.parse(env.load(path).value[i]).Ok?
    ensures var srcs := env.load(path).value;
            var files := seq(|srcs|, i requires 0 <= i < |srcs| => RewriteImports(env.parse(srcs[i]).value));
            Import(path, env) == ImportRun(env.check(path, files), [QueryBaseline, LoadSources, ParseFiles, CheckFiles(files)])
  {
    ParseSucceeds(env.load(path).value, env.parse);
  }

  /** Every error the fallback returns is one a collaborator of the fallback
      produced: the standard importer's error is never reported. */
  lemma FallbackErrorSource<R, Pkg, E>(path: GoString, env: Env<R, Pkg, E>)
    requires env.baseline(path).Err?
    requires Import(path, env).result.Err?
    ensures var e := Import(path, env).result.error;
            env.load(path) == Err(e)
            || (env.load(path).Ok? && exists i :: 0 <= i < |env.load(path).value| && env.parse(env.load(path).value[i]) == Err(e))
            || (env.load(path).Ok? && ParseAndRewrite(env.load(path).value, env.parse).Ok?
                && env.check(path, ParseAndRewrite(env.load(path).value, env.parse).value) == Err(e))
  {
  }
}
