/** The regular expressions the controller translates to "starts with" and "ends with" conditions, against a
    reading of the pattern text as a regular expression. */
module RegexFragment {
  import opened Text

  // ----- the code

  predicate IsRegexMeta(c: char) {
    c == '.' || c == '^' || c == '$' || c == '*' || c == '+' || c == '?' || c == '(' || c == ')' ||
    c == '[' || c == ']' || c == '{' || c == '}' || c == '|'
  }

  predicate IsConditionLiteralByte(c: char) {
    c >= 32 as char && c != 127 as char && c != '\''
  }

  predicate IsEscapable(c: char) {
    c == '.' || c == '/' || c == '\\'
  }

  /** The text a pattern without operators stands for; only `.`, `/` and `\` may be escaped. */
  function DecodeChars(value: string): Option<string> {
    if value == "" then Some("")
    else if value[0] != '\\' then
      if !IsConditionLiteralByte(value[0]) || IsRegexMeta(value[0]) then None
      else Prepend(value[0], DecodeChars(value[1..]))
    else if |value| < 2 || !IsEscapable(value[1]) then None
    else Prepend(value[1], DecodeChars(value[2..]))
  }

  function Prepend(c: char, rest: Option<string>): Option<string> {
    match rest case None => None case Some(text) => Some([c] + text)
  }

  function DecodeLiteral(value: string): Option<string> {
    if value == "" then None else DecodeChars(value)
  }

  function ParseStartsWith(pattern: string): Option<string> {
    if !HasPrefix(pattern, "^") then None
    else DecodeLiteral(TrimSuffix(TrimSuffix(pattern[1..], ".*$"), ".*"))
  }

  function ParseEndsWith(pattern: string): Option<string> {
    if !HasSuffix(pattern, "$") then None
    else DecodeLiteral(TrimPrefix(pattern[..|pattern| - 1], ".*"))
  }

  method ParseRegexLiteral(value: string) returns (r: Option<string>)
    ensures r == DecodeLiteral(value)
  {
    if value == "" { return None; }
    var literal := "";
    var index := 0;
    assert value[index..] == value;
    if DecodeChars(value).Some? { assert "" + DecodeChars(value).value == DecodeChars(value).value; }
    while index < |value|
      invariant 0 <= index <= |value|
      invariant DecodeChars(value) == After(literal, DecodeChars(value[index..]))
    {
      var rest := value[index..];
      assert rest[1..] == value[index + 1..];
      if value[index] != '\\' {
        if !IsConditionLiteralByte(value[index]) { return None; }
        if IsRegexMeta(value[index]) { return None; }
        AfterPrepend(literal, value[index], DecodeChars(value[index + 1..]));
        literal := literal + [value[index]];
        index := index + 1;
        continue;
      }
      index := index + 1;
      if index >= |value| { return None; }
      if !IsEscapable(value[index]) { return None; }
      assert rest[2..] == value[index + 1..];
      AfterPrepend(literal, value[index], DecodeChars(value[index + 1..]));
      literal := literal + [value[index]];
      index := index + 1;
    }
    assert value[index..] == "" && literal + "" == literal;
    return Some(literal);
  }

  function After(literal: string, rest: Option<string>): Option<string> {
    match rest case None => None case Some(text) => Some(literal + text)
  }

  lemma {:induction false} AfterPrepend(literal: string, c: char, rest: Option<string>)
    ensures After(literal, Prepend(c, rest)) == After(literal + [c], rest)
  {
    if rest.Some? { assert literal + ([c] + rest.value) == literal + [c] + rest.value; }
  }

  // ----- regular expressions

  datatype Token = Lit(c: char) | Any | AnyStar | Begin | End

  predicate IsWordChar(c: char) {
    'a' <= c <= 'z' || 'A' <= c <= 'Z' || '0' <= c <= '9'
  }

  /** Reads a pattern as literals, `.`, `.*`, `^` and `$`; None when it uses any other operator. An escaped
      punctuation character is that character. */
  function Tokenize(pattern: string): Option<seq<Token>> {
    if pattern == "" then Some([])
    else if pattern[0] == '\\' then
      if |pattern| < 2 || IsWordChar(pattern[1]) then None else Cons(Lit(pattern[1]), Tokenize(pattern[2..]))
    else if pattern[0] == '.' then
      if |pattern| >= 2 && pattern[1] == '*' then Cons(AnyStar, Tokenize(pattern[2..]))
      else Cons(Any, Tokenize(pattern[1..]))
    else if pattern[0] == '^' then Cons(Begin, Tokenize(pattern[1..]))
    else if pattern[0] == '$' then Cons(End, Tokenize(pattern[1..]))
    else if IsRegexMeta(pattern[0]) then None
    else Cons(Lit(pattern[0]), Tokenize(pattern[1..]))
  }

  function Cons(t: Token, rest: Option<seq<Token>>): Option<seq<Token>> {
    match rest case None => None case Some(tokens) => Some([t] + tokens)
  }

  predicate MatchesAt(tokens: seq<Token>, value: string, pos: nat)
    requires pos <= |value|
    decreases |tokens|, |value| - pos
  {
    if tokens == [] then true
    else
      match tokens[0]
      case Lit(c) => pos < |value| && value[pos] == c && MatchesAt(tokens[1..], value, pos + 1)
      case Any => pos < |value| && MatchesAt(tokens[1..], value, pos + 1)
      case AnyStar => MatchesAt(tokens[1..], value, pos) || (pos < |value| && MatchesAt(tokens, value, pos + 1))
      case Begin => pos == 0 && MatchesAt(tokens[1..], value, pos)
      case End => pos == |value| && MatchesAt(tokens[1..], value, pos)
  }

  /** Unanchored search: the pattern matches somewhere in the value. */
  ghost predicate Search(tokens: seq<Token>, value: string) {
    exists pos: nat :: pos <= |value| && MatchesAt(tokens, value, pos)
  }

  function Lits(text: string): seq<Token> {
    if text == "" then [] else [Lit(text[0])] + Lits(text[1..])
  }

  /** A decodable text reads as its literal characters, whatever follows. */
  lemma {:induction false} TokenizeDecoded(value: string, rest: string)
    requires DecodeChars(value).Some?
    ensures Tokenize(value + rest) ==
            (match Tokenize(rest) case None => None case Some(tokens) => Some(Lits(DecodeChars(value).value) + tokens))
    decreases |value|
  {
    var whole := value + rest;
    if value == "" {
      assert whole == rest;
      if Tokenize(rest).Some? { assert Lits("") + Tokenize(rest).value == Tokenize(rest).value; }
    } else {
      var n := if value[0] != '\\' then 1 else 2;
      var c := if value[0] != '\\' then value[0] else value[1];
      assert whole[n..] == value[n..] + rest;
      TokenizeDecoded(value[n..], rest);
      var tail := DecodeChars(value[n..]).value;
      assert ([c] + tail)[1..] == tail;
      if Tokenize(rest).Some? {
        assert [Lit(c)] + (Lits(tail) + Tokenize(rest).value) == [Lit(c)] + Lits(tail) + Tokenize(rest).value;
      }
    }
  }

  lemma {:induction false} MatchLits(text: string, tokens: seq<Token>, value: string, pos: nat)
    requires pos <= |value|
    ensures MatchesAt(Lits(text) + tokens, value, pos) <==>
            pos + |text| <= |value| && value[pos..pos + |text|] == text && MatchesAt(tokens, value, pos + |text|)
    decreases |text|
  {
    var all := Lits(text) + tokens;
    if text == "" {
      assert all == tokens;
    } else {
      assert all[1..] == Lits(text[1..]) + tokens;
      if pos < |value| {
        MatchLits(text[1..], tokens, value, pos + 1);
        if value[pos] == text[0] && pos + |text| <= |value| {
          assert value[pos..pos + |text|] == [value[pos]] + value[pos + 1..pos + 1 + |text[1..]|];
          assert text == [text[0]] + text[1..];
        }
      }
    }
  }

  // ----- "starts with"

  predicate IsOpenTail(tail: string) {
    tail == "" || tail == ".*" || tail == ".*$" || tail == ".*.*$"
  }

  lemma {:induction false} TailTokens()
    ensures Tokenize("") == Some([])
    ensures Tokenize("$") == Some([End])
    ensures Tokenize(".*") == Some([AnyStar])
    ensures Tokenize(".*$") == Some([AnyStar, End])
    ensures Tokenize(".*.*$") == Some([AnyStar, AnyStar, End])
  {
    assert Tokenize("") == Some([]);
    assert "$"[1..] == "" && [End] + [] == [End];
    assert ".*"[2..] == "" && [AnyStar] + [] == [AnyStar];
    assert ".*$"[2..] == "$" && [AnyStar] + [End] == [AnyStar, End];
    assert ".*.*$"[2..] == ".*$" && [AnyStar] + [AnyStar, End] == [AnyStar, AnyStar, End];
  }

  lemma {:induction false} StarMatches(tokens: seq<Token>, value: string, pos: nat)
    requires pos <= |value|
    ensures MatchesAt([AnyStar] + tokens, value, pos) <==>
            exists k: nat :: pos <= k <= |value| && MatchesAt(tokens, value, k)
    decreases |value| - pos
  {
    var all := [AnyStar] + tokens;
    assert all[0] == AnyStar && all[1..] == tokens;
    if pos < |value| {
      StarMatches(tokens, value, pos + 1);
      assert MatchesAt(all, value, pos) <==> MatchesAt(tokens, value, pos) || MatchesAt(all, value, pos + 1);
      if k: nat :| pos <= k <= |value| && MatchesAt(tokens, value, k) {
        assert k == pos || pos + 1 <= k;
      }
      assert MatchesAt(tokens, value, pos) ==> exists k: nat :: pos <= k <= |value| && MatchesAt(tokens, value, k);
    } else {
      assert MatchesAt(all, value, pos) <==> MatchesAt(tokens, value, pos);
    }
  }

  lemma {:induction false} OpenTailMatches(tail: string, value: string, pos: nat)
    requires IsOpenTail(tail) && pos <= |value|
    ensures Tokenize(tail).Some? && MatchesAt(Tokenize(tail).value, value, pos)
  {
    TailTokens();
    assert MatchesAt([], value, pos);
    StarMatches([], value, pos);
    assert [AnyStar] + [] == [AnyStar];
    assert MatchesAt([End], value, |value|);
    StarMatches([End], value, pos);
    StarMatches([End], value, |value|);
    assert [AnyStar] + [End] == [AnyStar, End];
    StarMatches([AnyStar, End], value, pos);
    assert [AnyStar] + [AnyStar, End] == [AnyStar, AnyStar, End];
  }

  lemma {:induction false} NoStarInDecoded(value: string)
    requires DecodeChars(value).Some?
    ensures '*' !in value
    decreases |value|
  {
    if value != "" {
      if value[0] != '\\' {
        NoStarInDecoded(value[1..]);
        assert value == [value[0]] + value[1..];
      } else {
        NoStarInDecoded(value[2..]);
        assert value == [value[0], value[1]] + value[2..];
      }
    }
  }

  /** The patterns accepted as a prefix test: `^L` with an open tail, where L decodes. */
  ghost predicate StartsWithForm(pattern: string, core: string, tail: string) {
    pattern == "^" + core + tail && IsOpenTail(tail) && DecodeLiteral(core).Some?
  }

  lemma {:induction false} FormOf(pattern: string)
    requires ParseStartsWith(pattern).Some?
    ensures exists core, tail :: StartsWithForm(pattern, core, tail)
  {
    var core, tail := OpenTailOf(pattern[1..]);
    assert pattern == "^" + core + tail;
    assert StartsWithForm(pattern, core, tail);
  }

  lemma {:induction false} FormParses(pattern: string, core: string, tail: string)
    requires StartsWithForm(pattern, core, tail)
    ensures ParseStartsWith(pattern) == DecodeLiteral(core)
  {
    TrimOpenTail(core, tail);
    assert pattern[1..] == core + tail;
  }

  lemma {:induction false} StartsWithForms(pattern: string)
    ensures ParseStartsWith(pattern).Some? <==> exists core, tail :: StartsWithForm(pattern, core, tail)
    ensures forall core, tail :: StartsWithForm(pattern, core, tail) ==> ParseStartsWith(pattern) == DecodeLiteral(core)
  {
    if ParseStartsWith(pattern).Some? { FormOf(pattern); }
    forall core, tail | StartsWithForm(pattern, core, tail)
      ensures ParseStartsWith(pattern) == DecodeLiteral(core)
    {
      FormParses(pattern, core, tail);
    }
  }

  /** Trimming takes off the suffix or nothing. */
  lemma {:induction false} TrimSuffixSplits(s: string, suffix: string) returns (rest: string)
    ensures s == TrimSuffix(s, suffix) + rest
    ensures rest == "" || rest == suffix
  {
    rest := if HasSuffix(s, suffix) then suffix else "";
  }

  lemma {:induction false} Regroup(core: string, second: string, first: string)
    ensures core + second + first == core + (second + first)
  {
  }

  /** The four ways two trims can go. */
  lemma {:induction false} TwoTrimsAreOpenTail(second: string, first: string)
    requires second == "" || second == ".*"
    requires first == "" || first == ".*$"
    ensures IsOpenTail(second + first)
  {
    assert "" + first == first && ".*" + "" == ".*";
    assert ".*" + ".*$" == ".*.*$";
  }

  lemma {:induction false} OpenTailOf(body: string) returns (core: string, tail: string)
    ensures core == TrimSuffix(TrimSuffix(body, ".*$"), ".*")
    ensures body == core + tail && IsOpenTail(tail)
  {
    var once := TrimSuffix(body, ".*$");
    var first := TrimSuffixSplits(body, ".*$");
    core := TrimSuffix(once, ".*");
    var second := TrimSuffixSplits(once, ".*");
    tail := second + first;
    Regroup(core, second, first);
    TwoTrimsAreOpenTail(second, first);
  }

  lemma {:induction false} TrimAppended(s: string, suffix: string)
    ensures TrimSuffix(s + suffix, suffix) == s
  {
    var t := s + suffix;
    assert t[|t| - |suffix|..] == suffix;
    assert t[..|t| - |suffix|] == s;
  }

  lemma {:induction false} TrimAbsent(s: string, suffix: string)
    requires !HasSuffix(s, suffix)
    ensures TrimSuffix(s, suffix) == s
  {
  }

  lemma {:induction false} SuffixEnds(s: string, suffix: string)
    requires suffix != "" && HasSuffix(s, suffix)
    ensures s != "" && s[|s| - 1] == suffix[|suffix| - 1]
  {
    assert s[|s| - |suffix|..][|suffix| - 1] == s[|s| - 1];
  }

  lemma {:induction false} TrimOpenTail(core: string, tail: string)
    requires DecodeLiteral(core).Some? && IsOpenTail(tail)
    ensures TrimSuffix(TrimSuffix(core + tail, ".*$"), ".*") == core
  {
    NoStarInDecoded(core);
    assert ".*"[1] == '*' && ".*$"[1] == '*';
    NoSuffixWithStar(core, ".*");
    NoSuffixWithStar(core, ".*$");
    TrimAbsent(core, ".*$");
    TrimAbsent(core, ".*");
    if tail == "" {
      assert core + tail == core;
    } else if tail == ".*" {
      if HasSuffix(core + ".*", ".*$") { SuffixEnds(core + ".*", ".*$"); }
      TrimAbsent(core + ".*", ".*$");
      TrimAppended(core, ".*");
    } else if tail == ".*$" {
      TrimAppended(core, ".*$");
    } else {
      Regroup(core, ".*", ".*$");
      assert ".*" + ".*$" == ".*.*$";
      TrimAppended(core + ".*", ".*$");
      TrimAppended(core, ".*");
    }
  }

  lemma {:induction false} NoSuffixWithStar(s: string, suffix: string)
    requires '*' !in s && '*' in suffix
    ensures !HasSuffix(s, suffix)
  {
    SuffixMembers(s, suffix);
  }

  lemma {:induction false} SuffixMembers(s: string, suffix: string)
    ensures HasSuffix(s, suffix) ==> forall c :: c in suffix ==> c in s
  {
  }

  lemma {:induction false} PrefixMembers(s: string, prefix: string)
    ensures HasPrefix(s, prefix) ==> forall c :: c in prefix ==> c in s
  {
  }

  /** An accepted prefix pattern matches a value exactly when the value starts with the decoded text. */
  lemma {:induction false} StartsWithIsExact(pattern: string, value: string)
    requires ParseStartsWith(pattern).Some?
    ensures Tokenize(pattern).Some?
    ensures Search(Tokenize(pattern).value, value) <==> HasPrefix(value, ParseStartsWith(pattern).value)
  {
    FormOf(pattern);
    var core, tail :| StartsWithForm(pattern, core, tail);
    FormParses(pattern, core, tail);
    FormIsExact(pattern, core, tail, value);
  }

  lemma {:induction false} FormIsExact(pattern: string, core: string, tail: string, value: string)
    requires StartsWithForm(pattern, core, tail)
    ensures Tokenize(pattern).Some?
    ensures Search(Tokenize(pattern).value, value) <==> HasPrefix(value, DecodeLiteral(core).value)
  {
    var text := DecodeLiteral(core).value;
    OpenTailMatches(tail, value, 0);
    TokenizeDecoded(core, tail);
    var body := Lits(text) + Tokenize(tail).value;
    assert pattern[1..] == core + tail;
    assert Tokenize(pattern) == Some([Begin] + body);
    assert ([Begin] + body)[1..] == body;
    MatchLits(text, Tokenize(tail).value, value, 0);
    if HasPrefix(value, text) {
      OpenTailMatches(tail, value, |text|);
      assert MatchesAt([Begin] + body, value, 0);
    }
  }

  // ----- "ends with"

  ghost predicate EndsWithForm(pattern: string, head: string, core: string) {
    pattern == head + core + "$" && (head == "" || head == ".*") && DecodeLiteral(core).Some?
  }

  lemma {:induction false} TrimPrefixSplits(s: string, prefix: string) returns (head: string)
    ensures s == head + TrimPrefix(s, prefix)
    ensures head == "" || head == prefix
  {
    head := if HasPrefix(s, prefix) then prefix else "";
    assert HasPrefix(s, prefix) ==> s == s[..|prefix|] + s[|prefix|..];
  }

  lemma {:induction false} EndFormOf(pattern: string)
    requires ParseEndsWith(pattern).Some?
    ensures exists head, core :: EndsWithForm(pattern, head, core)
  {
    var body := pattern[..|pattern| - 1];
    var head := TrimPrefixSplits(body, ".*");
    assert pattern == body + "$";
    assert EndsWithForm(pattern, head, TrimPrefix(body, ".*"));
  }

  lemma {:induction false} EndFormParses(pattern: string, head: string, core: string)
    requires EndsWithForm(pattern, head, core)
    ensures ParseEndsWith(pattern) == DecodeLiteral(core)
  {
    var body := head + core;
    assert pattern[..|pattern| - 1] == body && pattern[|pattern| - 1..] == "$";
    NoStarInDecoded(core);
    if head == "" {
      assert body == core;
      PrefixMembers(core, ".*");
      assert '*' in ".*";
    } else {
      assert body[..2] == ".*" && body[2..] == core;
    }
  }

  lemma {:induction false} EndsWithForms(pattern: string)
    ensures ParseEndsWith(pattern).Some? <==> exists head, core :: EndsWithForm(pattern, head, core)
    ensures forall head, core :: EndsWithForm(pattern, head, core) ==> ParseEndsWith(pattern) == DecodeLiteral(core)
  {
    if ParseEndsWith(pattern).Some? { EndFormOf(pattern); }
    forall head, core | EndsWithForm(pattern, head, core) ensures ParseEndsWith(pattern) == DecodeLiteral(core) {
      EndFormParses(pattern, head, core);
    }
  }

  lemma {:induction false} EndMatchesAt(text: string, value: string, pos: nat)
    requires pos <= |value|
    ensures MatchesAt(Lits(text) + [End], value, pos) <==> pos + |text| == |value| && value[pos..] == text
  {
    MatchLits(text, [End], value, pos);
    if pos + |text| == |value| { assert value[pos..pos + |text|] == value[pos..]; }
  }

  /** An accepted suffix pattern matches a value exactly when the value ends with the decoded text. */
  lemma {:induction false} EndsWithIsExact(pattern: string, value: string)
    requires ParseEndsWith(pattern).Some?
    ensures Tokenize(pattern).Some?
    ensures Search(Tokenize(pattern).value, value) <==> HasSuffix(value, ParseEndsWith(pattern).value)
  {
    EndsWithForms(pattern);
    var head, core :| EndsWithForm(pattern, head, core);
    var text := DecodeLiteral(core).value;
    TailTokens();
    TokenizeDecoded(core, "$");
    var body := Lits(text) + [End];
    assert Tokenize(core + "$") == Some(body);
    assert Tokenize(pattern) == Some(if head == "" then body else [AnyStar] + body) by {
      if head == "" {
        assert pattern == core + "$";
      } else {
        assert pattern == ".*" + (core + "$");
        assert pattern[2..] == core + "$";
      }
    }
    var tokens := Tokenize(pattern).value;
    forall pos: nat | pos <= |value|
      ensures MatchesAt(body, value, pos) <==> pos + |text| == |value| && value[pos..] == text
    {
      EndMatchesAt(text, value, pos);
    }
    if head != "" {
      forall pos: nat | pos <= |value|
        ensures MatchesAt(tokens, value, pos) <==> exists k: nat :: pos <= k <= |value| && MatchesAt(body, value, k)
      {
        StarMatches(body, value, pos);
      }
    }
    if HasSuffix(value, text) {
      assert MatchesAt(body, value, |value| - |text|);
      assert MatchesAt(tokens, value, |value| - |text|);
    }
  }

  lemma {:induction false} DecodedStart(core: string)
    requires DecodeLiteral(core).Some?
    ensures core != "" && core[0] != '^'
  {
  }

  lemma {:induction false} EndsWithStart(pattern: string, head: string, core: string)
    requires EndsWithForm(pattern, head, core)
    ensures pattern != "" && pattern[0] != '^'
  {
    DecodedStart(core);
    if head == "" { assert pattern[0] == core[0]; } else { assert pattern[0] == '.'; }
  }

  /** No pattern is both. */
  lemma {:induction false} NeverBoth(pattern: string)
    ensures ParseStartsWith(pattern).None? || ParseEndsWith(pattern).None?
  {
    if ParseEndsWith(pattern).Some? {
      EndsWithForms(pattern);
      var head, core :| EndsWithForm(pattern, head, core);
      EndsWithStart(pattern, head, core);
    }
  }

  // ----- escaping

  predicate Expressible(text: string) {
    forall c :: c in text ==> IsConditionLiteralByte(c) && (c == '.' || c == '\\' || !IsRegexMeta(c))
  }

  function Escape(text: string): string {
    if text == "" then ""
    else (if text[0] == '.' || text[0] == '\\' then ['\\', text[0]] else [text[0]]) + Escape(text[1..])
  }

  /** Decoding undoes escaping. */
  lemma {:induction false} DecodeUndoesEscape(text: string)
    requires Expressible(text)
    ensures DecodeChars(Escape(text)) == Some(text)
  {
    if text != "" {
      var first := if text[0] == '.' || text[0] == '\\' then ['\\', text[0]] else [text[0]];
      assert Escape(text)[|first|..] == Escape(text[1..]);
      DecodeUndoesEscape(text[1..]);
      assert text == [text[0]] + text[1..];
      assert text[0] in text;
    }
  }

  lemma {:induction false} EscapeNonEmpty(text: string)
    requires text != ""
    ensures Escape(text) != ""
  {
  }

  /** Through the whole reader: every non-empty expressible text, escaped and put into an accepted form, comes back
      as it was. */
  lemma {:induction false} EscapedTextParses(text: string, tail: string, head: string)
    requires text != "" && Expressible(text)
    requires IsOpenTail(tail) && (head == "" || head == ".*")
    ensures ParseStartsWith("^" + Escape(text) + tail) == Some(text)
    ensures ParseEndsWith(head + Escape(text) + "$") == Some(text)
  {
    DecodeUndoesEscape(text);
    EscapeNonEmpty(text);
    FormParses("^" + Escape(text) + tail, Escape(text), tail);
    EndFormParses(head + Escape(text) + "$", head, Escape(text));
  }

  /** What decodes is expressible, so nothing else can be written in a pattern. */
  lemma {:induction false} DecodedIsExpressible(value: string)
    requires DecodeChars(value).Some?
    ensures Expressible(DecodeChars(value).value)
    ensures value != "" ==> DecodeChars(value).value != ""
    decreases |value|
  {
    if value != "" {
      var n := if value[0] != '\\' then 1 else 2;
      DecodedIsExpressible(value[n..]);
    }
  }
}
