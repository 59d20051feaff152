/**
 * What DnaSassEngine.GetIncludeTag computes, as functions: the extension
 * rule, the partial-override rule, and the outcome of one call, with the
 * properties the engine relies on.
 *
 * The file system is the set `existing` of paths for which File.Exists
 * holds; DnaConfiguration.ResolveFullPath is the parameter `resolve`,
 * applied to the including file's directory and the include path.
 */
module IncludeTag {
  import opened Wrappers
  import opened Strings
  import opened Paths
  import opened ImportStatement
  import opened ImportList

  const ScssExtension: string := ".scss"
  const PartialPrefix: string := "_"

  /** The include path with `.scss` appended unless it already ends with it. */
  function WithScssExtension(path: string): (r: string)
    ensures EndsWith(r, ScssExtension)
    ensures StartsWith(r, path) && |r| <= |path| + |ScssExtension|
  {
    if EndsWith(path, ScssExtension) then path else path + ScssExtension
  }

  /** The path with the partial marker put in front of its file name, in the same directory. */
  function UnderscoredSibling(path: string): (r: string)
    ensures FileName(r) == PartialPrefix + FileName(path)
    ensures DirName(r) == DirName(path)
  {
    CombineFileName(DirName(path), PartialPrefix + FileName(path));
    CombineDirName(path, PartialPrefix + FileName(path));
    Combine(DirName(path), PartialPrefix + FileName(path))
  }

  /**
   * The override rule: a file name without the partial marker gives way to
   * the underscored sibling when that sibling exists.
   */
  function ApplyPartialOverride(path: string, existing: set<string>): (r: string)
    ensures r == path || (r == UnderscoredSibling(path) && r in existing)
    ensures StartsWith(FileName(path), PartialPrefix) ==> r == path
  {
    if StartsWith(FileName(path), PartialPrefix) then path
    else if UnderscoredSibling(path) in existing then UnderscoredSibling(path)
    else path
  }

  /** The override rule spelled out the way GetIncludeTag applies it. */
  lemma OverrideStep(path: string, existing: set<string>)
    ensures var sibling := Combine(DirName(path), PartialPrefix + FileName(path));
            ApplyPartialOverride(path, existing)
            == if !StartsWith(FileName(path), PartialPrefix) && sibling in existing then sibling else path
  {
  }

  /** The path one token of an import yields, from a file at `filePath`. */
  function IncludePath(filePath: string, token: string, existing: set<string>,
                       resolve: (string, string) -> string): string
  {
    ApplyPartialOverride(resolve(DirName(filePath), WithScssExtension(token)), existing)
  }

  /** `f` applied to every element of `s`, in order. */
  function Map<T, U>(f: T -> U, s: seq<T>): (r: seq<U>)
    ensures |r| == |s| && forall k :: 0 <= k < |s| ==> r[k] == f(s[k])
  {
    seq(|s|, k requires 0 <= k < |s| => f(s[k]))
  }

  /** Mapping one more element appends its image. */
  lemma MapSnoc<T, U>(f: T -> U, s: seq<T>, i: nat)
    requires i < |s|
    ensures Map(f, s[..i + 1]) == Map(f, s[..i]) + [f(s[i])]
  {
    assert forall k :: 0 <= k < i ==> s[..i + 1][k] == s[..i][k];
  }

  /** IncludePath for one file, as a function of the token. */
  function IncludePathOf(filePath: string, existing: set<string>,
                         resolve: (string, string) -> string): string -> string
  {
    token => IncludePath(filePath, token, existing, resolve)
  }

  /** The paths the tokens yield, one each, in order. */
  function IncludePaths(filePath: string, tokens: seq<string>, existing: set<string>,
                        resolve: (string, string) -> string): seq<string>
  {
    Map(IncludePathOf(filePath, existing, resolve), tokens)
  }

  /**
   * The guard of GetIncludeTag: with every `'` turned into `"`, the
   * trimmed body starts and ends with `"`.
   */
  predicate IsQuotedList(inner: string) {
    var normalized := Replace(inner, '\'', '"');
    StartsWith(normalized, "\"") && EndsWith(normalized, "\"")
  }

  /** The return value of GetIncludeTag together with its `includePaths`. */
  datatype IncludeResult = IncludeResult(found: bool, paths: seq<string>)

  /** One call of GetIncludeTag. */
  function GetIncludeTag(filePath: string, contents: string, existing: set<string>,
                         resolve: (string, string) -> string): IncludeResult
  {
    match FindImport(contents)
    case None => IncludeResult(false, [])
    case Some(m) =>
      var inner := Trim(Body(contents, m));
      if IsQuotedList(inner) then IncludeResult(true, IncludePaths(filePath, Tokens(inner), existing, resolve))
      else IncludeResult(false, [])
  }

  // ---------------------------------------------------------------------
  // The extension rule

  /** `.scss` is appended at most once: `x` and `x.scss` both give `x.scss`, and a result is never changed again. */
  lemma ExtensionAppendedOnce(token: string)
    ensures WithScssExtension(WithScssExtension(token)) == WithScssExtension(token)
    ensures WithScssExtension(token + ScssExtension) == WithScssExtension(token) <==> !EndsWith(token, ScssExtension)
    ensures EndsWith(WithScssExtension(token), ".scss.scss") ==> EndsWith(token, ".scss.scss")
  {
    var x := token + ScssExtension;
    assert x[|x| - |ScssExtension|..] == ScssExtension;
    if EndsWith(token, ScssExtension) {
      assert |x| != |token|;
    }
  }

  /** A plain name stays plain, and keeps its first character, when the extension is added. */
  lemma PlainNameWithExtension(token: string)
    requires token != [] && Separator !in token
    ensures var name := WithScssExtension(token);
            name != [] && Separator !in name && name[0] == token[0]
  {
    assert ScssExtension == ['.', 's', 'c', 's', 's'];
    if !EndsWith(token, ScssExtension) {
      var name := token + ScssExtension;
      assert forall k :: |token| <= k < |name| ==> name[k] == ScssExtension[k - |token|];
    }
  }

  /** A path ending in `.scss` has a file name ending in `.scss`. */
  lemma FileNameKeepsExtension(p: string)
    requires EndsWith(p, ScssExtension)
    ensures EndsWith(FileName(p), ScssExtension)
  {
    var f := FileName(p);
  }

  // ---------------------------------------------------------------------
  // The override rule

  /** The underscored sibling wins exactly when the name lacks the marker and the sibling exists. */
  lemma OverrideChoosesSibling(path: string, existing: set<string>)
    ensures ApplyPartialOverride(path, existing) != path
            <==> !StartsWith(FileName(path), PartialPrefix) && UnderscoredSibling(path) in existing
  {
    var f := FileName(path);
    if ApplyPartialOverride(path, existing) == UnderscoredSibling(path) && !StartsWith(f, PartialPrefix) {
      assert FileName(UnderscoredSibling(path)) == PartialPrefix + f;
      assert |PartialPrefix + f| != |f|;
    }
  }

  /** Applying the override to its own result changes nothing. */
  lemma OverrideIdempotent(path: string, existing: set<string>)
    ensures ApplyPartialOverride(ApplyPartialOverride(path, existing), existing) == ApplyPartialOverride(path, existing)
  {
    var r := ApplyPartialOverride(path, existing);
    if r != path {
      assert FileName(r) == PartialPrefix + FileName(path);
      assert StartsWith(FileName(r), PartialPrefix);
    }
  }

  /** The override changes at most the file name, by the marker; it keeps the directory and the `.scss` ending. */
  lemma OverrideKeepsDirectoryAndExtension(path: string, existing: set<string>)
    ensures var r := ApplyPartialOverride(path, existing);
            DirName(r) == DirName(path)
            && (FileName(r) == FileName(path) || FileName(r) == PartialPrefix + FileName(path))
            && (EndsWith(FileName(path), ScssExtension) ==> EndsWith(FileName(r), ScssExtension))
  {
    var r := ApplyPartialOverride(path, existing);
    if r != path {
      assert r == UnderscoredSibling(path);
      if EndsWith(FileName(path), ScssExtension) {
        EndsWithAfterPrefix(PartialPrefix, FileName(path), ScssExtension);
      }
    }
  }

  /**
   * `resolve` leaves the file name of a `.scss` path alone: it may rewrite
   * the directory part, but not the name of the file it points at.
   */
  ghost predicate KeepsScssFileNames(resolve: (string, string) -> string) {
    forall d, p :: EndsWith(p, ScssExtension) ==> FileName(resolve(d, p)) == FileName(p)
  }

  /** Resolution by plain joining, Path.Combine, is such a resolver. */
  lemma CombineKeepsScssFileNames()
    ensures KeepsScssFileNames(Combine)
  {
    forall d, p | EndsWith(p, ScssExtension) ensures FileName(Combine(d, p)) == FileName(p) {
      CombineKeepsFileName(d, p);
    }
  }

  /** An include path's file name ends in `.scss` when resolving this name keeps its file name. */
  lemma IncludePathEndsInScss(filePath: string, token: string, existing: set<string>,
                              resolve: (string, string) -> string)
    requires FileName(resolve(DirName(filePath), WithScssExtension(token))) == FileName(WithScssExtension(token))
    ensures EndsWith(FileName(IncludePath(filePath, token, existing, resolve)), ScssExtension)
  {
    var p := resolve(DirName(filePath), WithScssExtension(token));
    FileNameKeepsExtension(WithScssExtension(token));
    OverrideKeepsDirectoryAndExtension(p, existing);
  }

  /** Every path a call of GetIncludeTag yields has a file name ending in `.scss`, for a resolver that keeps `.scss` file names. */
  lemma IncludePathsEndInScss(filePath: string, contents: string, existing: set<string>,
                              resolve: (string, string) -> string)
    requires KeepsScssFileNames(resolve)
    ensures var paths := GetIncludeTag(filePath, contents, existing, resolve).paths;
            forall k :: 0 <= k < |paths| ==> EndsWith(FileName(paths[k]), ScssExtension)
  {
    var paths := GetIncludeTag(filePath, contents, existing, resolve).paths;
    if paths != [] {
      var inner := Trim(Body(contents, FindImport(contents).value));
      var tokens := Tokens(inner);
      assert paths == IncludePaths(filePath, tokens, existing, resolve);
      forall k | 0 <= k < |paths| ensures EndsWith(FileName(paths[k]), ScssExtension) {
        var name := WithScssExtension(tokens[k]);
        assert paths[k] == IncludePath(filePath, tokens[k], existing, resolve);
        assert EndsWith(name, ScssExtension);
        IncludePathEndsInScss(filePath, tokens[k], existing, resolve);
      }
    }
  }

  /**
   * For a plain token when resolution simply joins it to the directory:
   * `_x.scss` is chosen over `x.scss` whenever it exists, whatever else exists.
   */
  lemma PlainTokenPrefersPartial(filePath: string, token: string, existing: set<string>,
                                 resolve: (string, string) -> string)
    requires token != [] && Separator !in token && !StartsWith(token, PartialPrefix)
    requires resolve(DirName(filePath), WithScssExtension(token)) == Combine(DirName(filePath), WithScssExtension(token))
    ensures var dir := DirName(filePath);
            var partial := Combine(dir, PartialPrefix + WithScssExtension(token));
            IncludePath(filePath, token, existing, resolve)
              == if partial in existing then partial else Combine(dir, WithScssExtension(token))
  {
    var dir := DirName(filePath);
    var name := WithScssExtension(token);
    PlainNameWithExtension(token);
    var p := Combine(dir, name);
    CombineFileName(dir, name);
    CombineDirName(filePath, name);
    assert !StartsWith(FileName(p), PartialPrefix);
    OverrideStep(p, existing);
  }

  // ---------------------------------------------------------------------
  // The statement guard and the outcome of one call

  /** The guard holds exactly when the trimmed body starts and ends with a quote of either kind. */
  lemma QuotedListByEnds(inner: string)
    ensures IsQuotedList(inner) <==> |inner| >= 1 && IsQuote(inner[0]) && IsQuote(inner[|inner| - 1])
  {
    var n := Replace(inner, '\'', '"');
    if |inner| >= 1 {
      assert n[..1] == [n[0]];
      assert n[|n| - 1..] == [n[|n| - 1]];
    }
  }

  /** Regex.Match returns at most one first match. */
  lemma FirstMatchUnique(t: string, m1: StatementMatch, m2: StatementMatch)
    requires IsFirstMatch(t, m1) && IsFirstMatch(t, m2)
    ensures m1 == m2
  {
    assert TriedNoLater(m1, m2.index, m2.bodyStart, m2.bodyEnd, m2.end);
    assert TriedNoLater(m2, m1.index, m1.bodyStart, m1.bodyEnd, m1.end);
  }

  /**
   * One call, in the terms of the pattern: nothing matches, so false;
   * or the first match's trimmed body decides, and its tokens give the
   * paths one by one.
   */
  lemma GetIncludeTagOutcome(filePath: string, contents: string, existing: set<string>,
                             resolve: (string, string) -> string)
    ensures NoMatch(contents) ==> GetIncludeTag(filePath, contents, existing, resolve) == IncludeResult(false, [])
    ensures forall m :: IsFirstMatch(contents, m) ==>
              var inner := Trim(Body(contents, m));
              GetIncludeTag(filePath, contents, existing, resolve)
                == if IsQuotedList(inner) then IncludeResult(true, IncludePaths(filePath, Tokens(inner), existing, resolve))
                   else IncludeResult(false, [])
  {
    FindImportIsFirstMatch(contents);
    forall m | IsFirstMatch(contents, m)
      ensures FindImport(contents) == Some(m)
    {
      FirstMatchUnique(contents, m, FindImport(contents).value);
    }
  }

  /** A call that returns false leaves `includePaths` empty. */
  lemma NotFoundHasNoPaths(filePath: string, contents: string, existing: set<string>,
                           resolve: (string, string) -> string)
    ensures !GetIncludeTag(filePath, contents, existing, resolve).found
            ==> GetIncludeTag(filePath, contents, existing, resolve).paths == []
    ensures GetIncludeTag(filePath, contents, existing, resolve).found ==> FindImport(contents).Some?
  {
  }
}

/**
 * Consequences of the model of GetIncludeTag for whole statements: the
 * round trip from a written import list, the CSS `@import url(...)`
 * form, a worked example, and the interchangeability of `'` and `"`.
 */
module IncludeTagProperties {
  import opened Wrappers
  import opened Strings
  import opened Paths
  import opened ImportStatement
  import opened ImportList
  import opened IncludeTag

  /** A rendered list starts and ends with a quote and stays on one line. */
  lemma {:induction false} RenderShape(ts: seq<string>)
    requires |ts| >= 1 && forall k :: 0 <= k < |ts| ==> '\n' !in ts[k]
    ensures var r := Render(ts);
            |r| >= 2 && r[0] == '"' && r[|r| - 1] == '"' && '\n' !in r
    decreases |ts|
  {
    if |ts| > 1 {
      RenderShape(ts[1..]);
      var tail := Render(ts[1..]);
      ListSeparatorUnquoted();
      assert Render(ts) == Quoted(ts[0]) + ListSeparator + tail;
    }
  }

  /** Once the statement is found, its trimmed body alone decides the call. */
  lemma OutcomeOfMatch(filePath: string, contents: string, m: StatementMatch, inner: string,
                       existing: set<string>, resolve: (string, string) -> string)
    requires FindImport(contents) == Some(m)
    requires Trim(Body(contents, m)) == inner
    ensures GetIncludeTag(filePath, contents, existing, resolve)
            == if IsQuotedList(inner) then IncludeResult(true, IncludePaths(filePath, Tokens(inner), existing, resolve))
               else IncludeResult(false, [])
  {
  }

  /** GetIncludeTag on a text that is one statement on one line: its body alone decides. */
  lemma GetIncludeTagOfLine(filePath: string, body: string, existing: set<string>,
                            resolve: (string, string) -> string)
    requires |body| >= 1 && !IsWhiteSpace(body[0]) && !IsWhiteSpace(body[|body| - 1])
    requires '\n' !in body
    ensures GetIncludeTag(filePath, Keyword + " " + body + ";", existing, resolve)
            == if IsQuotedList(body) then IncludeResult(true, IncludePaths(filePath, Tokens(body), existing, resolve))
               else IncludeResult(false, [])
  {
    SingleStatementLine(body);
    var t := Keyword + " " + body + ";";
    var m := StatementMatch(0, |Keyword| + 1, |t| - 1, |t|);
    assert Body(t, m) == body;
    TrimUnchanged(body);
    OutcomeOfMatch(filePath, t, m, body, existing, resolve);
  }

  /** `body` is a quoted list on one line, with nothing to trim, whose tokens are `ts`. */
  ghost predicate ListBody(body: string, ts: seq<string>) {
    OneLineQuotedList(body) && Tokens(body) == ts
  }

  /** `body` is a quoted list on one line, with nothing to trim. */
  ghost predicate OneLineQuotedList(body: string) {
    |body| >= 1 && !IsWhiteSpace(body[0]) && !IsWhiteSpace(body[|body| - 1])
    && '\n' !in body && IsQuotedList(body)
  }

  /** A one-line statement whose body is a quoted list gives one path per token of the body. */
  lemma GetIncludeTagOfList(filePath: string, body: string, ts: seq<string>, existing: set<string>,
                            resolve: (string, string) -> string)
    requires ListBody(body, ts)
    ensures GetIncludeTag(filePath, Keyword + " " + body + ";", existing, resolve)
            == IncludeResult(true, IncludePaths(filePath, ts, existing, resolve))
  {
    GetIncludeTagOfLine(filePath, body, existing, resolve);
  }

  /** A rendered list is a list body whose tokens are the list. */
  lemma RenderedListIsQuotedList(ts: seq<string>)
    requires |ts| >= 1
    requires forall k :: 0 <= k < |ts| ==> IsName(ts[k]) && '\n' !in ts[k]
    ensures ListBody(Render(ts), ts)
  {
    RenderedListShape(ts);
    TokensOfRender(ts);
  }

  /** A rendered list is a quoted list on one line. */
  lemma RenderedListShape(ts: seq<string>)
    requires |ts| >= 1 && forall k :: 0 <= k < |ts| ==> '\n' !in ts[k]
    ensures OneLineQuotedList(Render(ts))
  {
    var body := Render(ts);
    RenderShape(ts);
    QuotedListByEnds(body);
  }

  /**
   * Writing tokens as `@import "x", "y", ...;` and calling GetIncludeTag
   * on it finds the statement and yields exactly one path per token, in order.
   */
  lemma ImportOfRenderedList(filePath: string, ts: seq<string>, existing: set<string>,
                             resolve: (string, string) -> string)
    requires |ts| >= 1
    requires forall k :: 0 <= k < |ts| ==> IsName(ts[k]) && '\n' !in ts[k]
    ensures GetIncludeTag(filePath, Keyword + " " + Render(ts) + ";", existing, resolve)
            == IncludeResult(true, IncludePaths(filePath, ts, existing, resolve))
  {
    RenderedListIsQuotedList(ts);
    GetIncludeTagOfList(filePath, Render(ts), ts, existing, resolve);
  }

  lemma CssUrlLine(body: string)
    requires body == "url(foo)"
    ensures Keyword + " " + body + ";" == "@import url(foo);"
  {
    assert Keyword == "@import";
  }

  /** The CSS form `@import url(foo);` is found as a statement but is not an include. */
  lemma CssUrlImportIsNotAnInclude(filePath: string, existing: set<string>,
                                   resolve: (string, string) -> string)
    ensures GetIncludeTag(filePath, "@import url(foo);", existing, resolve) == IncludeResult(false, [])
  {
    var body := "url(foo)";
    CssUrlLine(body);
    GetIncludeTagOfLine(filePath, body, existing, resolve);
    QuotedListByEnds(body);
  }

  /** A single-quoted name is one token. */
  lemma SingleQuotedToken(name: string)
    requires IsName(name)
    ensures Tokens("'" + name + "'") == [name]
  {
    var single := "'" + name + "'";
    assert QuoteEquivalent(single, Quoted(name) + "");
    TokensQuoteBlind(single, Quoted(name) + "");
    TokensOfQuoted(name, "");
  }

  /** The separator text between two statements on one line. */
  const NextImport := "; " + Keyword + " "

  lemma NextImportPlain()
    ensures forall k :: 0 <= k < |NextImport| ==> !IsQuote(NextImport[k]) && NextImport[k] != '\n'
  {
    assert NextImport == "; @import ";
  }

  /** A double-quoted and a single-quoted name, separated by a second `@import`, are two tokens. */
  lemma TwoStatementTokens(a: string, b: string)
    requires IsName(a) && IsName(b)
    ensures Tokens(Quoted(a) + NextImport + "'" + b + "'") == [a, b]
  {
    var single := "'" + b + "'";
    var next := NextImport;
    assert Quoted(a) + NextImport + "'" + b + "'" == Quoted(a) + (next + single);
    TokensOfQuoted(a, next + single);
    assert Tokens(Quoted(a) + (next + single)) == [a] + Tokens(next + single);
    NextImportPlain();
    TokensSkipUnquoted(next, single);
    assert Tokens(next + single) == Tokens(single);
    SingleQuotedToken(b);
    assert Tokens(single) == [b];
  }

  /** The body of the line below: a one-line quoted list. */
  function TwoNameBody(a: string, b: string): (body: string)
    ensures |body| == |a| + |b| + |NextImport| + 4
  {
    Quoted(a) + NextImport + "'" + b + "'"
  }

  lemma TwoNameBodyOnOneLine(a: string, b: string)
    requires '\n' !in a && '\n' !in b
    ensures var body := TwoNameBody(a, b);
            body[0] == '"' && body[|body| - 1] == '\'' && '\n' !in body
  {
    var body := TwoNameBody(a, b);
    NextImportPlain();
    forall k | 0 <= k < |body| ensures body[k] != '\n' {
      if k == 0 || k == |a| + 1 || k == |a| + 2 + |NextImport| || k == |body| - 1 {
      } else if k <= |a| {
        assert body[k] == a[k - 1];
      } else if k < |a| + 2 + |NextImport| {
        assert body[k] == NextImport[k - |a| - 2];
      } else {
        assert body[k] == b[k - |a| - 3 - |NextImport|];
      }
    }
  }

  /** So is the two-name body, with tokens a then b. */
  lemma TwoNameBodyIsList(a: string, b: string)
    requires IsName(a) && IsName(b) && '\n' !in a && '\n' !in b
    ensures ListBody(TwoNameBody(a, b), [a, b])
  {
    TwoNameBodyOnOneLine(a, b);
    QuotedListByEnds(TwoNameBody(a, b));
    TwoStatementTokens(a, b);
  }

  /**
   * `@import "a"; @import 'b';` on one line: the first `;` does not end
   * the statement, since text follows it on the line, so the whole line
   * is one statement and both names are includes, in order.
   */
  lemma TwoImportsOnOneLine(filePath: string, a: string, b: string, existing: set<string>,
                            resolve: (string, string) -> string)
    requires IsName(a) && IsName(b) && '\n' !in a && '\n' !in b
    ensures GetIncludeTag(filePath, Keyword + " " + TwoNameBody(a, b) + ";", existing, resolve)
            == IncludeResult(true, IncludePaths(filePath, [a, b], existing, resolve))
  {
    TwoNameBodyIsList(a, b);
    GetIncludeTagOfList(filePath, TwoNameBody(a, b), [a, b], existing, resolve);
  }

  // ---------------------------------------------------------------------
  // `'` and `"` are interchangeable

  lemma MatchesAtQuoteBlind(t: string, t': string, p: int, b: int, e: int, j: int)
    requires QuoteEquivalent(t, t')
    ensures MatchesAt(t, p, b, e, j) <==> MatchesAt(t', p, b, e, j)
  {
    if 0 <= p && p + |Keyword| <= |t| && (t[p..p + |Keyword|] == Keyword || t'[p..p + |Keyword|] == Keyword) {
      assert forall k :: 0 <= k < |Keyword| ==> !IsQuote(Keyword[k]);
      assert t[p..p + |Keyword|] == t'[p..p + |Keyword|];
    }
  }

  /** The statement finder does not tell the two quote kinds apart. */
  lemma FindImportQuoteBlind(t: string, t': string)
    requires QuoteEquivalent(t, t')
    ensures FindImport(t) == FindImport(t')
  {
    forall p, b, e, j ensures MatchesAt(t, p, b, e, j) <==> MatchesAt(t', p, b, e, j) {
      MatchesAtQuoteBlind(t, t', p, b, e, j);
    }
    FindImportIsFirstMatch(t);
    FindImportIsFirstMatch(t');
    if FindImport(t).Some? {
      assert IsFirstMatch(t', FindImport(t).value);
      FirstMatchUnique(t', FindImport(t).value, FindImport(t').value);
    }
  }

  /** Quotes are not white space, so strings that differ only in quote kinds have white space at the same places. */
  lemma WhiteSpaceQuoteBlind(s: string, s': string)
    requires QuoteEquivalent(s, s')
    ensures forall k :: 0 <= k < |s| ==> (IsWhiteSpace(s[k]) <==> IsWhiteSpace(s'[k]))
  {
    assert !IsWhiteSpace('\'') && !IsWhiteSpace('"');
  }

  /** The leading white space of strings that differ only in quote kinds has the same length. */
  lemma LeadingWhiteSpaceQuoteBlind(s: string, s': string)
    requires QuoteEquivalent(s, s')
    ensures LeadingWhiteSpace(s) == LeadingWhiteSpace(s')
  {
    WhiteSpaceQuoteBlind(s, s');
    var n, n' := LeadingWhiteSpace(s), LeadingWhiteSpace(s');
    assert n' <= n by {
      if n < |s| {
        assert !IsWhiteSpace(s'[n]);
        assert forall k :: 0 <= k < n' ==> IsWhiteSpace(s'[..n'][k]);
      }
    }
    assert n <= n' by {
      if n' < |s| {
        assert !IsWhiteSpace(s[n']);
        assert forall k :: 0 <= k < n ==> IsWhiteSpace(s[..n][k]);
      }
    }
  }

  /** So has the trailing white space. */
  lemma TrailingWhiteSpaceQuoteBlind(s: string, s': string)
    requires QuoteEquivalent(s, s')
    ensures TrailingWhiteSpace(s) == TrailingWhiteSpace(s')
  {
    WhiteSpaceQuoteBlind(s, s');
    var n, n' := TrailingWhiteSpace(s), TrailingWhiteSpace(s');
    var m := |s|;
    assert n' <= n by {
      if n < m {
        assert !IsWhiteSpace(s'[m - n - 1]);
        var tail' := s'[m - n'..];
        assert forall k :: 0 <= k < n' ==> IsWhiteSpace(tail'[k]);
      }
    }
    assert n <= n' by {
      if n' < m {
        assert !IsWhiteSpace(s[m - n' - 1]);
        var tail := s[m - n..];
        assert forall k :: 0 <= k < n ==> IsWhiteSpace(tail[k]);
      }
    }
  }

  /** Trimming cuts the same positions from strings that differ only in quote kinds. */
  lemma TrimQuoteBlind(s: string, s': string)
    requires QuoteEquivalent(s, s')
    ensures QuoteEquivalent(Trim(s), Trim(s'))
  {
    LeadingWhiteSpaceQuoteBlind(s, s');
    var a, a' := TrimStart(s), TrimStart(s');
    assert QuoteEquivalent(a, a');
    TrailingWhiteSpaceQuoteBlind(a, a');
  }

  /**
   * Whole calls do not tell the two quote kinds apart: a file written
   * with `'` gives the same answer as the same file written with `"`.
   */
  lemma GetIncludeTagQuoteBlind(filePath: string, contents: string, contents': string,
                                existing: set<string>, resolve: (string, string) -> string)
    requires QuoteEquivalent(contents, contents')
    ensures GetIncludeTag(filePath, contents, existing, resolve) == GetIncludeTag(filePath, contents', existing, resolve)
  {
    FindImportQuoteBlind(contents, contents');
    if FindImport(contents).Some? {
      var m := FindImport(contents).value;
      var body, body' := Body(contents, m), Body(contents', m);
      assert QuoteEquivalent(body, body');
      TrimQuoteBlind(body, body');
      var inner, inner' := Trim(body), Trim(body');
      QuotedListByEnds(inner);
      QuotedListByEnds(inner');
      TokensQuoteBlind(inner, inner');
    }
  }

  /** In particular, turning every `'` of a file into `"` changes nothing. */
  lemma SingleQuotesAsDouble(filePath: string, contents: string, existing: set<string>,
                             resolve: (string, string) -> string)
    ensures GetIncludeTag(filePath, contents, existing, resolve)
            == GetIncludeTag(filePath, Replace(contents, '\'', '"'), existing, resolve)
  {
    GetIncludeTagQuoteBlind(filePath, contents, Replace(contents, '\'', '"'), existing, resolve);
  }
}
