/**
 * `lib/utils.ts`: the site's base URL from the environment, regular-expression escaping,
 * and the two word matchers the blog search uses.
 *
 * The matchers build a pattern string and hand it to `RegExp`. The model does the same:
 * the pattern is a string, `Parse` reads the literal fragment of the pattern language
 * (plain characters, escaped syntax characters and `\b`) into atoms, and `MatchAt`
 * is what a regular expression made of those atoms matches, with the `i` flag.
 */
module Utils {
  import opened Wrappers
  import opened Strings

  // ---------------------------------------------------------------------------------------
  // getBaseUrl

  /** The environment variables `getBaseUrl` reads; `None` is an unset variable. */
  datatype Env = Env(nextPublicBaseUrl: Option<string>, vercelUrl: Option<string>, nodeEnv: Option<string>)

  /** An environment variable is truthy when it is set to a non-empty string. */
  predicate IsSet(v: Option<string>) {
    v.Some? && v.value != ""
  }

  /** `s.replace(/\/$/, "")`: one `/` at the very end is removed. */
  function DropTrailingSlash(s: string): (r: string)
    ensures EndsWith(s, "/") ==> r + "/" == s
    ensures !EndsWith(s, "/") ==> r == s
  {
    if |s| > 0 && s[|s| - 1] == '/' then s[..|s| - 1] else s
  }

  const LocalUrl := "http://localhost:3000"
  const ProductionUrl := "https://kaivlya.com"

  /** The first source that is set wins: the explicit base URL, then Vercel's host, then the fallbacks. */
  function GetBaseUrl(env: Env): (r: string)
    ensures IsSet(env.nextPublicBaseUrl) ==>
              r == DropTrailingSlash(Trim(env.nextPublicBaseUrl.value))
    ensures !IsSet(env.nextPublicBaseUrl) && IsSet(env.vercelUrl) ==>
              r == "https://" + env.vercelUrl.value
    ensures !IsSet(env.nextPublicBaseUrl) && !IsSet(env.vercelUrl) ==>
              r == (if env.nodeEnv == Some("development") then LocalUrl else ProductionUrl)
  {
    if IsSet(env.nextPublicBaseUrl) then DropTrailingSlash(Trim(env.nextPublicBaseUrl.value))
    else if IsSet(env.vercelUrl) then "https://" + env.vercelUrl.value
    else if env.nodeEnv == Some("development") then LocalUrl
    else ProductionUrl
  }

  /**
   * The base URL does not end in `/`, so appending `/blog` gives one slash, provided the
   * trimmed `NEXT_PUBLIC_BASE_URL` does not end in `//` and, when it is the source used,
   * `VERCEL_URL` does not end in `/`.
   */
  lemma GetBaseUrlNoTrailingSlash(env: Env)
    requires IsSet(env.nextPublicBaseUrl) ==> !EndsWith(Trim(env.nextPublicBaseUrl.value), "//")
    requires !IsSet(env.nextPublicBaseUrl) && IsSet(env.vercelUrl) ==> !EndsWith(env.vercelUrl.value, "/")
    ensures !EndsWith(GetBaseUrl(env), "/")
  {
    var r := GetBaseUrl(env);
    if IsSet(env.nextPublicBaseUrl) {
      var t := Trim(env.nextPublicBaseUrl.value);
      if EndsWith(t, "/") {
        assert r + "/" == t;
        assert |r| > 0 ==> r[|r| - 1] == t[|t| - 2] && t[|t| - 2..] == [t[|t| - 2], t[|t| - 1]];
      }
    } else if IsSet(env.vercelUrl) {
      var v := env.vercelUrl.value;
      assert r[|r| - 1] == v[|v| - 1];
      assert v[|v| - 1..] == [v[|v| - 1]];
    }
  }

  // ---------------------------------------------------------------------------------------
  // escapeRegExp

  /** The characters `escapeRegExp` escapes: the syntax characters of the pattern language. */
  predicate IsRegexSpecial(c: char) {
    c in ".*+?^${}()|[]\\"
  }

  /** What `escapeRegExp` makes of one character. */
  function EscapeChar(c: char): (r: string)
    ensures IsRegexSpecial(c) ==> r == ['\\', c]
    ensures !IsRegexSpecial(c) ==> r == [c]
  {
    if IsRegexSpecial(c) then ['\\', c] else [c]
  }

  /** `escapeRegExp`: a backslash before every syntax character, every other character kept. */
  function EscapeRegExp(s: string): (r: string)
    ensures |r| >= |s|
    ensures (forall i :: 0 <= i < |s| ==> !IsRegexSpecial(s[i])) ==> r == s
  {
    if |s| == 0 then ""
    else
      assert [s[0]] + s[1..] == s;
      EscapeChar(s[0]) + EscapeRegExp(s[1..])
  }

  lemma {:induction false} EscapeRegExpConcat(a: string, b: string)
    ensures EscapeRegExp(a + b) == EscapeRegExp(a) + EscapeRegExp(b)
  {
    if |a| == 0 {
      assert a + b == b;
    } else {
      assert (a + b)[0] == a[0];
      assert (a + b)[1..] == a[1..] + b;
      EscapeRegExpConcat(a[1..], b);
      assert EscapeChar(a[0]) + (EscapeRegExp(a[1..]) + EscapeRegExp(b))
          == EscapeChar(a[0]) + EscapeRegExp(a[1..]) + EscapeRegExp(b);
    }
  }

  // ---------------------------------------------------------------------------------------
  // The literal fragment of the pattern language

  datatype Atom = Lit(c: char) | WordBoundary

  /** The atoms matching exactly the characters of `s`, one literal each. */
  function Lits(s: string): (r: seq<Atom>)
    ensures |r| == |s|
    ensures forall i :: 0 <= i < |s| ==> r[i] == Lit(s[i])
  {
    seq(|s|, i requires 0 <= i < |s| => Lit(s[i]))
  }

  lemma LitsCons(s: string)
    requires |s| > 0
    ensures Lits(s) == [Lit(s[0])] + Lits(s[1..])
  {
  }

  function Prepend(a: Atom, rest: Option<seq<Atom>>): (r: Option<seq<Atom>>)
    ensures r.Some? <==> rest.Some?
    ensures rest.Some? ==> r.value == [a] + rest.value
  {
    match rest
    case None => None
    case Some(atoms) => Some([a] + atoms)
  }

  /**
   * Reads a pattern written in the literal fragment: a plain character, a backslash before a
   * syntax character, and `\b`. Anything else is `None`; the matchers treat `None` as the
   * construction of the regular expression failing.
   */
  function Parse(p: string): Option<seq<Atom>>
    decreases |p|
  {
    if |p| == 0 then Some([])
    else if p[0] == '\\' then
      if |p| == 1 then None
      else if p[1] == 'b' then Prepend(WordBoundary, Parse(p[2..]))
      else if IsRegexSpecial(p[1]) then Prepend(Lit(p[1]), Parse(p[2..]))
      else None
    else if IsRegexSpecial(p[0]) then None
    else Prepend(Lit(p[0]), Parse(p[1..]))
  }

  /** An escaped character followed by more pattern reads as that character's literal, then the rest. */
  lemma ParseEscapedChar(c: char, q: string)
    ensures Parse(EscapeChar(c) + q) == Prepend(Lit(c), Parse(q))
  {
    var p := EscapeChar(c) + q;
    if IsRegexSpecial(c) {
      assert p[0] == '\\' && p[1] == c && c != 'b';
      assert p[2..] == q;
    } else {
      assert p[0] == c && c != '\\';
      assert p[1..] == q;
    }
  }

  /** The atoms `atoms` in front of a parse result, failure staying failure. */
  function PrependAll(atoms: seq<Atom>, rest: Option<seq<Atom>>): Option<seq<Atom>> {
    match rest
    case None => None
    case Some(r) => Some(atoms + r)
  }

  /** An escaped string followed by more pattern reads as the string's literals, then the rest. */
  lemma {:induction false} ParseEscapedThen(s: string, q: string)
    ensures Parse(EscapeRegExp(s) + q) == PrependAll(Lits(s), Parse(q))
  {
    if |s| == 0 {
      assert EscapeRegExp(s) + q == q;
      assert Lits(s) == [];
      assert Parse(q).Some? ==> [] + Parse(q).value == Parse(q).value;
    } else {
      var q' := EscapeRegExp(s[1..]) + q;
      ParseEscapedThen(s[1..], q);
      assert EscapeRegExp(s) + q == EscapeChar(s[0]) + q';
      ParseEscapedChar(s[0], q');
      PrependAllCons(s, Parse(q));
    }
  }

  lemma PrependAllCons(s: string, rest: Option<seq<Atom>>)
    requires |s| > 0
    ensures Prepend(Lit(s[0]), PrependAll(Lits(s[1..]), rest)) == PrependAll(Lits(s), rest)
  {
    if rest.Some? {
      LitsCons(s);
      assert Lits(s) + rest.value == [Lit(s[0])] + (Lits(s[1..]) + rest.value);
    }
  }

  /** `new RegExp(escapeRegExp(s))` matches exactly the characters of `s`: escaping is exact. */
  lemma ParseEscaped(s: string)
    ensures Parse(EscapeRegExp(s)) == Some(Lits(s))
  {
    ParseEscapedThen(s, "");
    assert EscapeRegExp(s) + "" == EscapeRegExp(s);
    assert Lits(s) + [] == Lits(s);
  }

  lemma ParseBoundaryThen(q: string)
    ensures Parse("\\b" + q) == Prepend(WordBoundary, Parse(q))
  {
    var p := "\\b" + q;
    assert p[0] == '\\' && p[1] == 'b';
    assert p[2..] == q;
  }

  /** The pattern `\b<escaped>\b` reads as a boundary, the word's literals, and a boundary. */
  lemma ParseBounded(s: string)
    ensures Parse("\\b" + EscapeRegExp(s) + "\\b") == Some([WordBoundary] + Lits(s) + [WordBoundary])
  {
    ParseBoundaryThen("");
    assert "\\b" + "" == "\\b";
    assert [WordBoundary] + [] == [WordBoundary];
    assert Parse("\\b") == Some([WordBoundary]);
    ParseEscapedThen(s, "\\b");
    ParseBoundaryThen(EscapeRegExp(s) + "\\b");
    assert "\\b" + EscapeRegExp(s) + "\\b" == "\\b" + (EscapeRegExp(s) + "\\b");
    assert [WordBoundary] + (Lits(s) + [WordBoundary]) == [WordBoundary] + Lits(s) + [WordBoundary];
  }

  // ---------------------------------------------------------------------------------------
  // Matching

  /** `\b` at position `i`: exactly one of the characters on either side is a word character. */
  predicate IsBoundary(t: string, i: nat)
    requires i <= |t|
  {
    (i > 0 && IsWordChar(t[i - 1])) != (i < |t| && IsWordChar(t[i]))
  }

  /** Two characters match under the `i` flag (ASCII case folding). */
  predicate SameIgnoringCase(a: char, b: char) {
    LowerChar(a) == LowerChar(b)
  }

  /** The atoms match `t` starting at position `i`. */
  predicate MatchAt(atoms: seq<Atom>, t: string, i: nat)
    requires i <= |t|
    decreases |atoms|
  {
    if |atoms| == 0 then true
    else match atoms[0]
      case Lit(c) => i < |t| && SameIgnoringCase(t[i], c) && MatchAt(atoms[1..], t, i + 1)
      case WordBoundary => IsBoundary(t, i) && MatchAt(atoms[1..], t, i)
  }

  /** `regex.test(t)` from position `i` on: some start position at or after `i` matches. */
  function SearchFrom(atoms: seq<Atom>, t: string, i: nat): (r: bool)
    requires i <= |t|
    ensures r ==> exists j: nat :: i <= j <= |t| && MatchAt(atoms, t, j)
    ensures forall j: nat :: i <= j <= |t| && MatchAt(atoms, t, j) ==> r
    decreases |t| - i
  {
    if MatchAt(atoms, t, i) then true
    else if i == |t| then false
    else SearchFrom(atoms, t, i + 1)
  }

  function Test(atoms: seq<Atom>, t: string): bool {
    SearchFrom(atoms, t, 0)
  }

  /** Literals followed by more atoms match where the characters agree ignoring case, then the rest matches. */
  lemma {:induction false} MatchLits(s: string, rest: seq<Atom>, t: string, i: nat)
    requires i <= |t|
    ensures MatchAt(Lits(s) + rest, t, i)
        <==> i + |s| <= |t|
             && (forall k :: 0 <= k < |s| ==> SameIgnoringCase(t[i + k], s[k]))
             && MatchAt(rest, t, i + |s|)
    decreases |s|
  {
    if |s| == 0 {
      assert Lits(s) + rest == rest;
    } else {
      var atoms := Lits(s) + rest;
      assert atoms[0] == Lit(s[0]);
      assert atoms[1..] == Lits(s[1..]) + rest;
      if i < |t| {
        MatchLits(s[1..], rest, t, i + 1);
        if MatchAt(atoms, t, i) {
          forall k | 0 <= k < |s| ensures SameIgnoringCase(t[i + k], s[k]) {
            if k > 0 {
              assert s[1..][k - 1] == s[k];
            }
          }
        }
        if i + |s| <= |t| && (forall k :: 0 <= k < |s| ==> SameIgnoringCase(t[i + k], s[k])) {
          forall k | 0 <= k < |s[1..]| ensures SameIgnoringCase(t[i + 1 + k], s[1..][k]) {
            assert SameIgnoringCase(t[i + (k + 1)], s[k + 1]);
          }
          assert SameIgnoringCase(t[i + 0], s[0]);
        }
      }
    }
  }

  /** On lowercased text and word, matching the literals at `i` is an occurrence at `i`. */
  lemma LitsOccur(w: string, t: string, rest: seq<Atom>, i: nat)
    requires i <= |t|
    requires w == ToLower(w) && t == ToLower(t)
    ensures MatchAt(Lits(w) + rest, t, i) <==> OccursAt(w, t, i) && MatchAt(rest, t, i + |w|)
  {
    MatchLits(w, rest, t, i);
    if i + |w| <= |t| {
      if forall k :: 0 <= k < |w| ==> SameIgnoringCase(t[i + k], w[k]) {
        forall k | 0 <= k < |w| ensures t[i..i + |w|][k] == w[k] {
          assert LowerChar(t[i + k]) == t[i + k] && LowerChar(w[k]) == w[k];
        }
      }
      if OccursAt(w, t, i) {
        forall k | 0 <= k < |w| ensures SameIgnoringCase(t[i + k], w[k]) {
          assert t[i..i + |w|][k] == w[k];
        }
      }
    }
  }

  // ---------------------------------------------------------------------------------------
  // containsExactWord and containsPartialWord

  /**
   * `text` is `None` when it is `null`, `undefined` or any value without a `toLowerCase`
   * method; for all of those the matchers answer false, and so they do for an empty word.
   */
  function ContainsExactWord(text: Option<string>, word: string): (r: bool)
    ensures text.None? || word == "" ==> !r
  {
    if text.None? || word == "" then false
    else
      match Parse("\\b" + EscapeRegExp(ToLower(word)) + "\\b")
      case None => false
      case Some(atoms) => Test(atoms, ToLower(text.value))
  }

  function ContainsPartialWord(text: Option<string>, word: string): (r: bool)
    ensures text.None? || word == "" ==> !r
  {
    if text.None? || word == "" then false
    else
      match Parse(EscapeRegExp(ToLower(word)))
      case None => false
      case Some(atoms) => Test(atoms, ToLower(text.value))
  }

  /** The word occurs in the text at `i` with a word boundary on both sides. */
  predicate ExactAt(w: string, t: string, i: int) {
    OccursAt(w, t, i) && IsBoundary(t, i) && IsBoundary(t, i + |w|)
  }

  /** `containsPartialWord` is a case-insensitive substring test. */
  lemma PartialIsSubstring(text: string, word: string)
    ensures ContainsPartialWord(Some(text), word)
        <==> word != "" && IsSubstring(ToLower(word), ToLower(text))
  {
    if word != "" {
      var w, t := ToLower(word), ToLower(text);
      LowerIdempotent(word);
      LowerIdempotent(text);
      ParseEscaped(w);
      assert ContainsPartialWord(Some(text), word) == SearchFrom(Lits(w), t, 0);
      forall j | 0 <= j <= |t| ensures MatchAt(Lits(w), t, j) <==> OccursAt(w, t, j) {
        LitsOccur(w, t, [], j);
        assert Lits(w) + [] == Lits(w);
      }
      if IsSubstring(w, t) {
        var j :| OccursAt(w, t, j);
        assert MatchAt(Lits(w), t, j);
      }
    }
  }

  /** `containsExactWord` finds the word with a `\b` boundary on both sides. */
  lemma ExactIsBoundedOccurrence(text: string, word: string)
    ensures ContainsExactWord(Some(text), word)
        <==> word != "" && exists i :: ExactAt(ToLower(word), ToLower(text), i)
  {
    if word != "" {
      var w, t := ToLower(word), ToLower(text);
      LowerIdempotent(word);
      LowerIdempotent(text);
      ParseBounded(w);
      var atoms := [WordBoundary] + Lits(w) + [WordBoundary];
      assert ContainsExactWord(Some(text), word) == SearchFrom(atoms, t, 0);
      forall j: nat | j <= |t| ensures MatchAt(atoms, t, j) <==> ExactAt(w, t, j) {
        BoundedMatchAt(w, t, j);
      }
      if exists i :: ExactAt(w, t, i) {
        var j :| ExactAt(w, t, j);
        assert MatchAt(atoms, t, j);
      }
    }
  }

  /** On lowercased text and word, `\b<word>\b` matches at `j` exactly where the word occurs bounded. */
  lemma BoundedMatchAt(w: string, t: string, j: nat)
    requires j <= |t|
    requires w == ToLower(w) && t == ToLower(t)
    ensures MatchAt([WordBoundary] + Lits(w) + [WordBoundary], t, j) <==> ExactAt(w, t, j)
  {
    var atoms := [WordBoundary] + Lits(w) + [WordBoundary];
    assert atoms[0] == WordBoundary;
    assert atoms[1..] == Lits(w) + [WordBoundary];
    LitsOccur(w, t, [WordBoundary], j);
    if j + |w| <= |t| {
      assert MatchAt([WordBoundary], t, j + |w|) <==> IsBoundary(t, j + |w|) by {
        assert [WordBoundary][1..] == [];
      }
    }
  }

  /** Every exact-word match is also a partial match. */
  lemma ExactImpliesPartial(text: Option<string>, word: string)
    ensures ContainsExactWord(text, word) ==> ContainsPartialWord(text, word)
  {
    if text.Some? && ContainsExactWord(text, word) {
      ExactIsBoundedOccurrence(text.value, word);
      PartialIsSubstring(text.value, word);
      var i :| ExactAt(ToLower(word), ToLower(text.value), i);
      OccursAtIsSubstring(ToLower(word), ToLower(text.value), i);
    }
  }

  /** Changing the case of the text or the word changes neither matcher's answer. */
  lemma MatchersIgnoreCase(text: string, word: string)
    ensures ContainsExactWord(Some(ToUpper(text)), word) == ContainsExactWord(Some(text), word)
    ensures ContainsExactWord(Some(text), ToUpper(word)) == ContainsExactWord(Some(text), word)
    ensures ContainsPartialWord(Some(ToUpper(text)), word) == ContainsPartialWord(Some(text), word)
    ensures ContainsPartialWord(Some(text), ToUpper(word)) == ContainsPartialWord(Some(text), word)
  {
    LowerOfUpper(text);
    LowerOfUpper(word);
    assert ToUpper(word) == "" <==> word == "";
  }
}
