/**
 * The statement finder: the pattern `@import\s*(.*?(?=\;))\;\s*$` of
 * DnaSassEngine, searched with RegexOptions.Multiline and the first match
 * taken, written out as a scanner.
 *
 * Under Multiline `$` holds at the end of the text and before every '\n';
 * `.` matches anything but '\n'; `\s` is the white-space class. So a
 * statement is the keyword, white space (newlines allowed), a body on one
 * line, a `;`, and nothing but white space up to the end of a line.
 */
module ImportStatement {
  import opened Wrappers
  import opened Strings

  const Keyword: string := "@import"

  /**
   * A successful match: the keyword starts at `index`, group 1 is
   * text[bodyStart..bodyEnd], the `;` is at `bodyEnd`, and the whole
   * match is text[index..end].
   */
  datatype StatementMatch = StatementMatch(index: nat, bodyStart: nat, bodyEnd: nat, end: nat)

  ghost predicate WhiteBetween(t: string, i: int, j: int) {
    0 <= i <= j <= |t| && forall k :: i <= k < j ==> IsWhiteSpace(t[k])
  }

  ghost predicate NoNewlineBetween(t: string, i: int, j: int) {
    0 <= i <= j <= |t| && forall k :: i <= k < j ==> t[k] != '\n'
  }

  /** `$` under RegexOptions.Multiline. */
  predicate AtLineEnd(t: string, j: nat)
    requires j <= |t|
  {
    j == |t| || t[j] == '\n'
  }

  /**
   * The pattern matches text[p..j] with its first `\s*` covering
   * text[p + 7..b], group 1 covering text[b..e], the `;` at e and the
   * trailing `\s*` covering text[e + 1..j].
   */
  ghost predicate MatchesAt(t: string, p: int, b: int, e: int, j: int) {
    0 <= p && p + |Keyword| <= b <= e < j <= |t|
    && t[p..p + |Keyword|] == Keyword
    && WhiteBetween(t, p + |Keyword|, b)
    && NoNewlineBetween(t, b, e)
    && t[e] == ';'
    && WhiteBetween(t, e + 1, j)
    && AtLineEnd(t, j)
  }

  /**
   * The order in which .NET's backtracking matcher tries the ways of
   * matching: leftmost start first, then the longest greedy `\s*`, then the
   * shortest lazy `.*?`, then the longest trailing `\s*`. `m` is tried no
   * later than the match (p, b, e, j).
   */
  ghost predicate TriedNoLater(m: StatementMatch, p: int, b: int, e: int, j: int) {
    m.index < p
    || (m.index == p && (b < m.bodyStart
    || (b == m.bodyStart && (m.bodyEnd < e
    || (m.bodyEnd == e && j <= m.end)))))
  }

  /** `m` is the match that Regex.Match returns for `t`. */
  ghost predicate IsFirstMatch(t: string, m: StatementMatch) {
    MatchesAt(t, m.index, m.bodyStart, m.bodyEnd, m.end)
    && forall p, b, e, j :: MatchesAt(t, p, b, e, j) ==> TriedNoLater(m, p, b, e, j)
  }

  ghost predicate NoMatch(t: string) {
    forall p, b, e, j :: !MatchesAt(t, p, b, e, j)
  }

  /** Group 1 of a match: the text between the keyword's white space and the `;`. */
  function Body(t: string, m: StatementMatch): (r: string)
    requires m.bodyStart <= m.bodyEnd <= |t|
    ensures |r| == m.bodyEnd - m.bodyStart
  {
    t[m.bodyStart..m.bodyEnd]
  }

  /** The end of the run of white space that starts at `i`. */
  function WhiteRunEnd(t: string, i: nat): (r: nat)
    requires i <= |t|
    ensures i <= r <= |t| && WhiteBetween(t, i, r)
    ensures r == |t| || !IsWhiteSpace(t[r])
    decreases |t| - i
  {
    if i < |t| && IsWhiteSpace(t[i]) then WhiteRunEnd(t, i + 1) else i
  }

  /** The last newline in text[lo..hi], if any. */
  function LastNewline(t: string, lo: nat, hi: nat): (r: Option<nat>)
    requires lo <= hi <= |t|
    ensures r.Some? ==> lo <= r.value < hi && t[r.value] == '\n'
                        && forall k :: r.value < k < hi ==> t[k] != '\n'
    ensures r.None? ==> forall k :: lo <= k < hi ==> t[k] != '\n'
    decreases hi - lo
  {
    if lo == hi then None
    else if t[hi - 1] == '\n' then Some(hi - 1)
    else LastNewline(t, lo, hi - 1)
  }

  /**
   * The greedy `\s*$` from `s`: where the longest white-space run from `s`
   * that stops at a line end stops, or None when none does.
   */
  function TrailerEnd(t: string, s: nat): (r: Option<nat>)
    requires s <= |t|
    ensures r.Some? ==> s <= r.value <= |t| && WhiteBetween(t, s, r.value) && AtLineEnd(t, r.value)
    ensures forall j :: s <= j <= |t| && WhiteBetween(t, s, j) && AtLineEnd(t, j) ==> r.Some? && j <= r.value
  {
    var w := WhiteRunEnd(t, s);
    assert IsWhiteSpace('\n');
    if w == |t| then Some(w) else LastNewline(t, s, w)
  }

  /**
   * The lazy `.*?(?=\;)\;` followed by `\s*$`, from `i`: the first `;` on
   * the line after which the rest of a line is blank, or None.
   */
  function Terminator(t: string, i: nat): (r: Option<nat>)
    requires i <= |t|
    ensures r.Some? ==> i <= r.value < |t| && NoNewlineBetween(t, i, r.value) && t[r.value] == ';'
                        && TrailerEnd(t, r.value + 1).Some?
    ensures forall e :: i <= e < |t| && NoNewlineBetween(t, i, e) && t[e] == ';' && TrailerEnd(t, e + 1).Some?
                        ==> r.Some? && r.value <= e
    decreases |t| - i
  {
    if i == |t| || t[i] == '\n' then None
    else if t[i] == ';' && TrailerEnd(t, i + 1).Some? then Some(i)
    else Terminator(t, i + 1)
  }

  /** The first match of the pattern that starts at `p`, if any. */
  function MatchAt(t: string, p: nat): (r: Option<StatementMatch>)
    requires p <= |t|
    ensures r.Some? ==> r.value.index == p && MatchesAt(t, p, r.value.bodyStart, r.value.bodyEnd, r.value.end)
  {
    if p + |Keyword| <= |t| && t[p..p + |Keyword|] == Keyword then
      var b := WhiteRunEnd(t, p + |Keyword|);
      match Terminator(t, b)
      case None => None
      case Some(e) => Some(StatementMatch(p, b, e, TrailerEnd(t, e + 1).value))
    else None
  }

  /** The first match of the pattern that starts at `p` or later. */
  function FindFrom(t: string, p: nat): (r: Option<StatementMatch>)
    requires p <= |t|
    ensures r.Some? ==> p <= r.value.index && MatchesAt(t, r.value.index, r.value.bodyStart, r.value.bodyEnd, r.value.end)
    decreases |t| - p
  {
    if p + |Keyword| > |t| then None
    else match MatchAt(t, p)
      case Some(m) => Some(m)
      case None => FindFrom(t, p + 1)
  }

  /** Regex.Match(t, pattern, RegexOptions.Multiline): the first statement in the text. */
  function FindImport(t: string): (r: Option<StatementMatch>)
    ensures r.Some? ==> MatchesAt(t, r.value.index, r.value.bodyStart, r.value.bodyEnd, r.value.end)
  {
    FindFrom(t, 0)
  }

  /**
   * No way of matching at `p` is tried before the one MatchAt returns,
   * and MatchAt finds one whenever there is one.
   */
  lemma MatchAtIsFirst(t: string, p: nat)
    requires p <= |t|
    ensures MatchAt(t, p).Some? ==> forall b, e, j :: MatchesAt(t, p, b, e, j) ==> TriedNoLater(MatchAt(t, p).value, p, b, e, j)
    ensures MatchAt(t, p).None? ==> forall b, e, j :: !MatchesAt(t, p, b, e, j)
  {
    forall b, e, j | MatchesAt(t, p, b, e, j)
      ensures MatchAt(t, p).Some? && TriedNoLater(MatchAt(t, p).value, p, b, e, j)
    {
      var w := WhiteRunEnd(t, p + |Keyword|);
      assert b <= w;
      assert !IsWhiteSpace(';');
      assert w <= e;
      assert TrailerEnd(t, e + 1).Some?;
      assert NoNewlineBetween(t, w, e);
    }
  }

  /** FindFrom returns the first match starting at `p` or later, and None only when there is none. */
  lemma {:induction false} FindFromIsFirst(t: string, p: nat)
    requires p <= |t|
    ensures FindFrom(t, p).Some? ==> forall q, b, e, j :: p <= q && MatchesAt(t, q, b, e, j) ==> TriedNoLater(FindFrom(t, p).value, q, b, e, j)
    ensures FindFrom(t, p).None? ==> forall q, b, e, j :: p <= q ==> !MatchesAt(t, q, b, e, j)
    decreases |t| - p
  {
    if p + |Keyword| > |t| {
      assert FindFrom(t, p).None?;
      forall q, b, e, j | p <= q ensures !MatchesAt(t, q, b, e, j) {
        assert q + |Keyword| > |t|;
      }
    } else {
      MatchAtIsFirst(t, p);
      match MatchAt(t, p)
      case Some(m) =>
        assert FindFrom(t, p) == Some(m);
        forall q, b, e, j | p <= q && MatchesAt(t, q, b, e, j) ensures TriedNoLater(m, q, b, e, j) {
          if q == p {
            assert TriedNoLater(MatchAt(t, p).value, p, b, e, j);
          }
        }
      case None =>
        assert FindFrom(t, p) == FindFrom(t, p + 1);
        FindFromIsFirst(t, p + 1);
        forall q, b, e, j | p <= q && MatchesAt(t, q, b, e, j) ensures p + 1 <= q {
          assert q != p;
        }
    }
  }

  /** FindImport is Regex.Match: it returns the match .NET returns, and None exactly when nothing matches. */
  lemma FindImportIsFirstMatch(t: string)
    ensures FindImport(t).Some? ==> IsFirstMatch(t, FindImport(t).value)
    ensures FindImport(t).None? <==> NoMatch(t)
  {
    FindFromIsFirst(t, 0);
  }

  /** A non-blank character ahead on the same line keeps `\s*$` from matching. */
  lemma NoTrailerBeforeText(t: string, s: nat, k: nat)
    requires s <= k < |t| && !IsWhiteSpace(t[k])
    requires forall i :: s <= i < k ==> t[i] != '\n'
    ensures TrailerEnd(t, s).None?
  {
  }

  /**
   * A text that is exactly one statement on one line, `@import <body>;`,
   * matches as a whole, the body being everything between the space and
   * the final `;`. A `;` inside the body does not end the statement, since
   * more than white space follows it on the line.
   */
  lemma SingleStatementLine(body: string)
    requires |body| >= 1 && !IsWhiteSpace(body[0]) && !IsWhiteSpace(body[|body| - 1])
    requires '\n' !in body
    ensures var t := Keyword + " " + body + ";";
            FindImport(t) == Some(StatementMatch(0, |Keyword| + 1, |t| - 1, |t|))
  {
    var t := Keyword + " " + body + ";";
    var b := |Keyword| + 1;
    assert t[..|Keyword|] == Keyword;
    assert t[|Keyword|] == ' ' && t[b] == body[0];
    assert WhiteRunEnd(t, |Keyword|) == b;
    forall k | b <= k < |t| - 1
      ensures t[k] == body[k - b]
    {
    }
    forall e | b <= e < |t| - 1 && t[e] == ';'
      ensures TrailerEnd(t, e + 1).None?
    {
      NoTrailerBeforeText(t, e + 1, |t| - 1);
    }
    assert TrailerEnd(t, |t|) == Some(|t|);
    assert NoNewlineBetween(t, b, |t| - 1) by {
      forall k | b <= k < |t| - 1 ensures t[k] != '\n' {
        assert t[k] == body[k - b];
      }
    }
    assert t[|t| - 1] == ';';
    var e := Terminator(t, b);
    assert e.Some? && e.value <= |t| - 1;
    assert e == Some(|t| - 1);
  }
}
