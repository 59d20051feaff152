/**
 * The token splitter: Regex.Matches with the pattern `['"]([^ '"]*)['"]`
 * of DnaSassEngine over the body of an import statement, keeping group 1
 * of each match, written out as a scanner.
 */
module ImportList {

  /** `'` and `"` play the same part in the pattern. */
  predicate IsQuote(c: char) {
    c == '\'' || c == '"'
  }

  /** The class `[^ '"]`: anything but a space or a quote. */
  predicate IsNameChar(c: char) {
    c != ' ' && !IsQuote(c)
  }

  ghost predicate IsName(s: string) {
    forall k :: 0 <= k < |s| ==> IsNameChar(s[k])
  }

  /** How far the greedy `[^ '"]*` reaches from the start of `s`. */
  function NameLength(s: string): (n: nat)
    ensures n <= |s| && IsName(s[..n])
    ensures n == |s| || !IsNameChar(s[n])
  {
    if s != [] && IsNameChar(s[0]) then 1 + NameLength(s[1..]) else 0
  }

  /**
   * Group 1 of every match, in order. A match starts at a quote when the
   * longest name after it is closed by a quote (backtracking to a shorter
   * name leaves a name character, never a quote, after it); the next
   * search starts after the closing quote. Anywhere else the search moves
   * on by one character.
   */
  function Tokens(s: string): (ts: seq<string>)
    ensures forall k :: 0 <= k < |ts| ==> IsName(ts[k])
    ensures 2 * |ts| <= |s|
    decreases |s|
  {
    if s == [] then []
    else if IsQuote(s[0]) then
      var n := NameLength(s[1..]);
      if n + 1 < |s| && IsQuote(s[n + 1]) then
        assert s[1..n + 1] == s[1..][..n];
        [s[1..n + 1]] + Tokens(s[n + 2..])
      else Tokens(s[1..])
    else Tokens(s[1..])
  }

  /** `s` and `s'` differ at most by the kind of quote at some positions. */
  ghost predicate QuoteEquivalent(s: string, s': string) {
    |s| == |s'| && forall k :: 0 <= k < |s| ==> s[k] == s'[k] || (IsQuote(s[k]) && IsQuote(s'[k]))
  }

  lemma {:induction false} NameLengthQuoteBlind(s: string, s': string)
    requires QuoteEquivalent(s, s')
    ensures NameLength(s) == NameLength(s')
    ensures s[..NameLength(s)] == s'[..NameLength(s)]
    decreases |s|
  {
    if s != [] && IsNameChar(s[0]) {
      assert QuoteEquivalent(s[1..], s'[1..]);
      NameLengthQuoteBlind(s[1..], s'[1..]);
      assert s[..NameLength(s)] == [s[0]] + s[1..][..NameLength(s[1..])];
      assert s'[..NameLength(s)] == [s'[0]] + s'[1..][..NameLength(s[1..])];
    }
  }

  /** `'` and `"` are interchangeable: swapping quote kinds anywhere yields the same tokens. */
  lemma {:induction false} TokensQuoteBlind(s: string, s': string)
    requires QuoteEquivalent(s, s')
    ensures Tokens(s) == Tokens(s')
    decreases |s|
  {
    if s != [] {
      assert QuoteEquivalent(s[1..], s'[1..]);
      if IsQuote(s[0]) {
        NameLengthQuoteBlind(s[1..], s'[1..]);
        var n := NameLength(s[1..]);
        if n + 1 < |s| && IsQuote(s[n + 1]) {
          assert s[1..n + 1] == s[1..][..n];
          assert s'[1..n + 1] == s'[1..][..n];
          assert QuoteEquivalent(s[n + 2..], s'[n + 2..]);
          TokensQuoteBlind(s[n + 2..], s'[n + 2..]);
        } else {
          TokensQuoteBlind(s[1..], s'[1..]);
        }
      } else {
        TokensQuoteBlind(s[1..], s'[1..]);
      }
    }
  }

  /** A token written between double quotes. */
  function Quoted(token: string): string {
    "\"" + token + "\""
  }

  /** What separates the entries of a written list. */
  const ListSeparator: string := ", "

  lemma ListSeparatorUnquoted()
    ensures forall k :: 0 <= k < |ListSeparator| ==> !IsQuote(ListSeparator[k]) && ListSeparator[k] != '\n'
  {
    assert ListSeparator == [',', ' '];
  }

  /** A list of tokens written the way an import lists them: `"x", "y", "z"`. */
  function Render(ts: seq<string>): string {
    if ts == [] then ""
    else if |ts| == 1 then Quoted(ts[0])
    else Quoted(ts[0]) + ListSeparator + Render(ts[1..])
  }

  /** The greedy name run stops exactly at the first character that is not a name character. */
  lemma {:induction false} NameLengthOfName(name: string, c: char, rest: string)
    requires IsName(name) && !IsNameChar(c)
    ensures NameLength(name + [c] + rest) == |name|
    decreases |name|
  {
    if name != [] {
      assert (name + [c] + rest)[1..] == name[1..] + [c] + rest;
      NameLengthOfName(name[1..], c, rest);
    }
  }

  /** A name between two quotes of either kind at the front is the next token. */
  lemma TokensOfDelimited(open: char, token: string, close: char, rest: string)
    requires IsQuote(open) && IsQuote(close) && IsName(token)
    ensures Tokens([open] + token + [close] + rest) == [token] + Tokens(rest)
  {
    var s := [open] + token + [close] + rest;
    assert s[1..] == token + [close] + rest;
    NameLengthOfName(token, close, rest);
    assert s[1..|token| + 1] == token;
    assert s[|token| + 2..] == rest;
  }

  /** A double-quoted name at the front is the next token. */
  lemma TokensOfQuoted(token: string, rest: string)
    requires IsName(token)
    ensures Tokens(Quoted(token) + rest) == [token] + Tokens(rest)
  {
    TokensOfDelimited('"', token, '"', rest);
    assert Quoted(token) + rest == ['"'] + token + ['"'] + rest;
  }

  /** Splitting a rendered list gives back the list, for tokens the pattern can match. */
  lemma {:induction false} TokensOfRender(ts: seq<string>)
    requires forall k :: 0 <= k < |ts| ==> IsName(ts[k])
    ensures Tokens(Render(ts)) == ts
    decreases |ts|
  {
    if |ts| == 1 {
      TokensOfQuoted(ts[0], "");
      assert Quoted(ts[0]) + "" == Quoted(ts[0]);
    } else if |ts| > 1 {
      var tail := Render(ts[1..]);
      assert Render(ts) == Quoted(ts[0]) + (ListSeparator + tail);
      TokensOfQuoted(ts[0], ListSeparator + tail);
      ListSeparatorUnquoted();
      TokensSkipUnquoted(ListSeparator, tail);
      TokensOfRender(ts[1..]);
      assert [ts[0]] + ts[1..] == ts;
    }
  }

  /** `"a", "b"` gives a then b. */
  lemma TwoTokens(a: string, b: string)
    requires IsName(a) && IsName(b)
    ensures Tokens(Quoted(a) + ListSeparator + Quoted(b)) == [a, b]
  {
    TokensOfRender([a, b]);
    assert Render([a, b]) == Quoted(a) + ListSeparator + Render([b]);
  }

  /** Mixed quote kinds split the same way: `'a', "b"` gives a then b. */
  lemma MixedQuotes(a: string, b: string)
    requires IsName(a) && IsName(b)
    ensures Tokens(['\''] + a + ['\''] + ListSeparator + Quoted(b)) == [a, b]
  {
    var rest := ListSeparator + Quoted(b);
    assert Tokens(rest) == [b] by {
      ListSeparatorUnquoted();
      TokensSkipUnquoted(ListSeparator, Quoted(b));
      TokensOfQuoted(b, "");
      assert Quoted(b) + "" == Quoted(b);
    }
    TokensOfDelimited('\'', a, '\'', rest);
    assert ['\''] + a + ['\''] + ListSeparator + Quoted(b) == ['\''] + a + ['\''] + rest;
  }

  /** A quote followed by a name that a character other than a quote ends opens no token. */
  lemma TokensOfUnclosed(open: char, name: string, c: char, rest: string)
    requires IsQuote(open) && IsName(name) && !IsNameChar(c) && !IsQuote(c)
    ensures Tokens([open] + name + [c] + rest) == Tokens(name + [c] + rest)
  {
    var s := [open] + name + [c] + rest;
    assert s[1..] == name + [c] + rest;
    NameLengthOfName(name, c, rest);
    assert s[|name| + 1] == c;
  }

  /** A space breaks a token: `"a b"` gives no token at all, whatever the names on either side. */
  lemma SpaceBreaksToken(a: string, b: string)
    requires IsName(a) && IsName(b)
    ensures Tokens("\"" + a + " " + b + "\"") == []
  {
    var unquoted := a + [' '] + b;
    TokensOfUnclosed('"', a, ' ', b + ['"']);
    assert a + [' '] + (b + ['"']) == unquoted + ['"'];
    assert Tokens(unquoted + ['"']) == [] by {
      assert forall k :: 0 <= k < |unquoted| ==> !IsQuote(unquoted[k]);
      TokensSkipUnquoted(unquoted, ['"']);
      assert Tokens(['"']) == [];
    }
    assert "\"" + a + " " + b + "\"" == ['"'] + a + [' '] + (b + ['"']);
  }

  /** Text without quotes yields no token and does not disturb the tokens after it. */
  lemma {:induction false} TokensSkipUnquoted(a: string, b: string)
    requires forall k :: 0 <= k < |a| ==> !IsQuote(a[k])
    ensures Tokens(a + b) == Tokens(b)
    decreases |a|
  {
    if a != [] {
      assert (a + b)[0] == a[0];
      assert (a + b)[1..] == a[1..] + b;
      TokensSkipUnquoted(a[1..], b);
    } else {
      assert a + b == b;
    }
  }
}
