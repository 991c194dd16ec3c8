/** SQL search patterns compiled to regular expressions. */
module LikePattern {
  import opened Wrappers

  // ---------------------------------------------------------------------
  // The pattern language
  // ---------------------------------------------------------------------

  predicate Wildcard(c: char) { c == '%' || c == '_' }

  /** "%" matches any run of characters, "_" exactly one, anything else itself. */
  predicate Like(pattern: string, s: string)
    decreases |pattern|, |s|
  {
    if pattern == "" then s == ""
    else if pattern[0] == '%' then Like(pattern[1..], s) || (s != "" && Like(pattern, s[1..]))
    else s != "" && (pattern[0] == '_' || pattern[0] == s[0]) && Like(pattern[1..], s[1..])
  }

  /** The same, with wildcards that do not match a newline. */
  predicate LikeOnLine(pattern: string, s: string)
    decreases |pattern|, |s|
  {
    if pattern == "" then s == ""
    else if pattern[0] == '%' then LikeOnLine(pattern[1..], s)
        || (s != "" && s[0] != '\n' && LikeOnLine(pattern, s[1..]))
    else s != "" && (if pattern[0] == '_' then s[0] != '\n' else pattern[0] == s[0]) && LikeOnLine(pattern[1..], s[1..])
  }

  // ---------------------------------------------------------------------
  // Regular expressions
  // ---------------------------------------------------------------------

  /** The dot leaves out the newline: no flags are set. */
  datatype Class = Dot | Exactly(c: char)

  datatype Item = Begin | End | One(cls: Class) | Many(cls: Class)

  type Regexp = seq<Item>

  predicate In(cls: Class, c: char) {
    match cls case Dot => c != '\n' case Exactly(d) => c == d
  }

  /** The expression matches some s[i..j]. */
  predicate MatchesAt(re: Regexp, s: string, i: nat)
    requires i <= |s|
    decreases |re|, |s| - i
  {
    if re == [] then true
    else
      match re[0]
      case Begin => i == 0 && MatchesAt(re[1..], s, i)
      case End => i == |s| && MatchesAt(re[1..], s, i)
      case One(cls) => i < |s| && In(cls, s[i]) && MatchesAt(re[1..], s, i + 1)
      case Many(cls) => MatchesAt(re[1..], s, i) || (i < |s| && In(cls, s[i]) && MatchesAt(re, s, i + 1))
  }

  /** MatchString: a match anywhere in s. */
  predicate MatchString(re: Regexp, s: string) {
    exists i :: 0 <= i <= |s| && MatchesAt(re, s, i)
  }

  /** The characters with a meaning of their own, beside anchors, the dot and the backslash. */
  predicate Operator(c: char) { c in "+*?()|[]{}" }

  predicate Escapable(c: char) { Operator(c) || c == '\\' || c == '.' || c == '^' || c == '$' }

  /** Regular-expression text without groups, classes, alternation, and the quantifiers
      other than "*": all that the compiler below emits, and more. */
  function Parse(text: string): Option<Regexp>
    decreases |text|, 0
  {
    if text == "" then Some([])
    else if text[0] == '^' then Prepend(Begin, Parse(text[1..]))
    else if text[0] == '$' then Prepend(End, Parse(text[1..]))
    else if text[0] == '.' then ParseAfter(Dot, text[1..])
    else if text[0] == '\\' then if |text| > 1
        && Escapable(text[1]) then ParseAfter(Exactly(text[1]), text[2..]) else None
    else if Operator(text[0]) then None
    else ParseAfter(Exactly(text[0]), text[1..])
  }

  /** After a single-character expression: "*" applies to it. */
  function ParseAfter(cls: Class, text: string): Option<Regexp>
    decreases |text|, 1
  {
    if text != "" && text[0] == '*' then Prepend(Many(cls), Parse(text[1..])) else Prepend(One(cls), Parse(text))
  }

  function Prepend(item: Item, rest: Option<Regexp>): Option<Regexp> {
    match rest case None => None case Some(re) => Some([item] + re)
  }

  // ---------------------------------------------------------------------
  // The compiler
  // ---------------------------------------------------------------------

  predicate Meta(c: char) { c in "\\.+*?()|[]{}^$" }

  function QuoteMeta(c: char): string { if Meta(c) then ['\\', c] else [c] }

  function Piece(c: char): string {
    if c == '_' then "." else if c == '%' then ".*" else QuoteMeta(c)
  }

  function Body(pattern: string): string {
    if pattern == "" then "" else Piece(pattern[0]) + Body(pattern[1..])
  }

  function Compiled(pattern: string): string { "^" + Body(pattern) + "$" }

  lemma {:induction false} BodyAppend(pattern: string, c: char)
    ensures Body(pattern + [c]) == Body(pattern) + Piece(c)
  {
    if pattern == "" { assert Body([c]) == Piece(c) + Body(""); }
    else {
      assert (pattern + [c])[1..] == pattern[1..] + [c];
      BodyAppend(pattern[1..], c);
    }
  }

  // ---------------------------------------------------------------------
  // The text parses back
  // ---------------------------------------------------------------------

  function ItemOf(c: char): Item {
    if c == '_' then One(Dot) else if c == '%' then Many(Dot) else One(Exactly(c))
  }

  /** The pattern, token by token. */
  function Tokens(pattern: string): Regexp {
    seq(|pattern|, i requires 0 <= i < |pattern| => ItemOf(pattern[i]))
  }

  lemma {:induction false} ParsePiece(c: char, rest: string)
    requires rest == "" || rest[0] != '*'
    ensures Parse(Piece(c) + rest) == Prepend(ItemOf(c), Parse(rest))
  {
    var text := Piece(c) + rest;
    if c == '%' {
      assert text[1..] == "*" + rest && text[1..][1..] == rest;
    } else if c != '_' && Meta(c) {
      assert text[2..] == rest;
    } else {
      assert text[1..] == rest;
    }
  }

  lemma {:induction false} ParseBody(pattern: string)
    ensures Parse(Body(pattern) + "$") == Some(Tokens(pattern) + [End])
  {
    if pattern == "" {
      assert Body("") + "$" == "$" && "$"[1..] == "";
      assert [End] + [] == Tokens("") + [End];
    } else {
      var c, rest := pattern[0], pattern[1..];
      ParseBody(rest);
      assert Body(pattern) + "$" == Piece(c) + (Body(rest) + "$");
      assert rest != "" ==> (Body(rest) + "$")[0] == Piece(rest[0])[0];
      ParsePiece(c, Body(rest) + "$");
      assert Tokens(pattern) == [ItemOf(c)] + Tokens(rest);
      assert [ItemOf(c)] + (Tokens(rest) + [End]) == Tokens(pattern) + [End];
    }
  }

  /** What was emitted is read as the anchored token sequence of the pattern. */
  lemma {:induction false} CompiledParses(pattern: string)
    ensures Parse(Compiled(pattern)) == Some([Begin] + Tokens(pattern) + [End])
  {
    ParseBody(pattern);
    assert Compiled(pattern)[1..] == Body(pattern) + "$";
    assert [Begin] + (Tokens(pattern) + [End]) == [Begin] + Tokens(pattern) + [End];
  }

  // ---------------------------------------------------------------------
  // Meaning
  // ---------------------------------------------------------------------

  predicate NewlineFree(s: string) { '\n' !in s }

  function Anchored(pattern: string): Regexp { [Begin] + Tokens(pattern) + [End] }

  lemma {:induction false} AnchoredAtStart(pattern: string, s: string)
    ensures MatchString(Anchored(pattern), s) <==> MatchesAt(Tokens(pattern) + [End], s, 0)
  {
    var re := Anchored(pattern);
    assert re[0] == Begin && re[1..] == Tokens(pattern) + [End];
    assert MatchesAt(re, s, 0) == MatchesAt(Tokens(pattern) + [End], s, 0);
    assert forall i | 0 < i <= |s| :: !MatchesAt(re, s, i);
  }

  /** The tokens match the rest of s exactly when the pattern does, on any string, with
      wildcards that stop at newlines. */
  lemma {:induction false} MatchesOnLine(pattern: string, s: string, i: nat)
    requires i <= |s|
    ensures MatchesAt(Tokens(pattern) + [End], s, i) <==> LikeOnLine(pattern, s[i..])
    decreases |pattern|, |s| - i
  {
    var re, t := Tokens(pattern) + [End], s[i..];
    if pattern == "" {
      assert re == [End] && re[1..] == [];
    } else {
      assert re[0] == ItemOf(pattern[0]) && re[1..] == Tokens(pattern[1..]) + [End];
      if pattern[0] == '%' { MatchesOnLine(pattern[1..], s, i); }
      if i < |s| {
        assert t[1..] == s[i + 1..] && t[0] == s[i];
        MatchesOnLine(pattern[1..], s, i + 1);
        if pattern[0] == '%' { MatchesOnLine(pattern, s, i + 1); }
      }
    }
  }

  /** Wildcards that stop at newlines make no difference without newlines, or without
      wildcards. */
  lemma {:induction false} SameOnLine(pattern: string, s: string)
    requires NewlineFree(s) || forall c | c in pattern :: !Wildcard(c)
    ensures LikeOnLine(pattern, s) <==> Like(pattern, s)
    decreases |pattern|, |s|
  {
    if pattern != "" {
      assert pattern[0] in pattern;
      if pattern[0] == '%' { SameOnLine(pattern[1..], s); }
      if s != "" {
        assert s[0] in s;
        SameOnLine(pattern[1..], s[1..]);
        if pattern[0] == '%' { SameOnLine(pattern, s[1..]); }
      }
    }
  }

  /** On every string the regular expression means what the pattern means with wildcards
      that stop at newlines. */
  lemma {:induction false} AnchoredMeans(pattern: string, s: string)
    ensures MatchString(Anchored(pattern), s) <==> LikeOnLine(pattern, s)
  {
    AnchoredAtStart(pattern, s);
    MatchesOnLine(pattern, s, 0);
    assert s[0..] == s;
  }

  /** On newline-free strings it means what the pattern means. */
  lemma {:induction false} CompilationPreservesMeaning(pattern: string, s: string)
    requires NewlineFree(s)
    ensures Parse(Compiled(pattern)).Some? && (MatchString(Parse(Compiled(pattern)).value, s) <==> Like(pattern, s))
  {
    CompiledParses(pattern);
    AnchoredMeans(pattern, s);
    SameOnLine(pattern, s);
  }

  // ---------------------------------------------------------------------
  // Newlines
  // ---------------------------------------------------------------------

  function Newlines(s: string): nat {
    if s == "" then 0 else (if s[0] == '\n' then 1 else 0) + Newlines(s[1..])
  }

  function Wildcards(s: string): nat {
    if s == "" then 0 else (if Wildcard(s[0]) then 1 else 0) + Wildcards(s[1..])
  }

  /** A matched string has exactly the newlines that the pattern spells out. */
  lemma {:induction false} NewlinesSpelledOut(pattern: string, s: string)
    requires LikeOnLine(pattern, s)
    ensures Newlines(s) == Newlines(pattern)
    decreases |pattern|, |s|
  {
    if pattern != "" {
      if pattern[0] != '%' { NewlinesSpelledOut(pattern[1..], s[1..]); }
      else if LikeOnLine(pattern[1..], s) { NewlinesSpelledOut(pattern[1..], s); }
      else { NewlinesSpelledOut(pattern, s[1..]); }
    }
  }

  /** The pattern with a newline in place of every wildcard. */
  function Broken(pattern: string): string {
    seq(|pattern|, i requires 0 <= i < |pattern| => if Wildcard(pattern[i]) then '\n' else pattern[i])
  }

  lemma {:induction false} BrokenIsLike(pattern: string)
    ensures Like(pattern, Broken(pattern)) && Newlines(Broken(pattern)) == Newlines(pattern) + Wildcards(pattern)
  {
    var s := Broken(pattern);
    if pattern != "" {
      BrokenIsLike(pattern[1..]);
      assert s[1..] == Broken(pattern[1..]);
      if pattern[0] == '%' { assert Like(pattern, s[1..]); }
    }
  }

  lemma {:induction false} NoWildcards(pattern: string)
    ensures Wildcards(pattern) == 0 <==> forall c | c in pattern :: !Wildcard(c)
  {
    if pattern != "" {
      NoWildcards(pattern[1..]);
      assert pattern == [pattern[0]] + pattern[1..];
    }
  }

  /** On strings with newlines too, it means what the pattern means exactly when the
      pattern has no wildcard. */
  lemma {:induction false} MeaningOnAllStrings(pattern: string)
    ensures (forall s :: MatchString(Anchored(pattern), s) <==> Like(pattern, s))
            <==> (forall c | c in pattern :: !Wildcard(c))
  {
    if forall c | c in pattern :: !Wildcard(c) {
      forall s ensures MatchString(Anchored(pattern), s) <==> Like(pattern, s) {
        AnchoredMeans(pattern, s);
        SameOnLine(pattern, s);
      }
    } else {
      var s := Broken(pattern);
      BrokenIsLike(pattern);
      NoWildcards(pattern);
      AnchoredMeans(pattern, s);
      if LikeOnLine(pattern, s) { NewlinesSpelledOut(pattern, s); }
      assert Like(pattern, s) && !MatchString(Anchored(pattern), s);
    }
  }

  // ---------------------------------------------------------------------
  // The driver's function
  // ---------------------------------------------------------------------

  /** No pattern, no filter.  Otherwise a filter always results, and it keeps exactly the
      newline-free names that match the pattern. */
  method PatternToRegexp(pattern: Option<string>) returns (filter: Option<Regexp>)
    ensures filter.None? <==> pattern.None?
    ensures pattern.Some? ==>
              && filter == Parse(Compiled(pattern.value))
              && forall s | NewlineFree(s) :: MatchString(filter.value, s) <==> Like(pattern.value, s)
  {
    if pattern.None? { return None; }
    var p := pattern.value;
    var builder := "^";
    for i := 0 to |p|
      invariant builder == "^" + Body(p[..i])
    {
      if p[i] == '_' {
        builder := builder + ".";
      } else if p[i] == '%' {
        builder := builder + ".*";
      } else {
        builder := builder + QuoteMeta(p[i]);
      }
      BodyAppend(p[..i], p[i]);
      assert p[..i + 1] == p[..i] + [p[i]];
    }
    builder := builder + "$";
    assert p[..|p|] == p;
    filter := Parse(builder);
    CompiledParses(p);
    forall s | NewlineFree(s) ensures MatchString(filter.value, s) <==> Like(p, s) {
      CompilationPreservesMeaning(p, s);
    }
  }
}
