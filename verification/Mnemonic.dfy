/** One word per octet: the phrase form of the human-custody share (`mnemonic.rs`), over any suitable word list. */
module Mnemonic {
  import opened AsciiCase
  import opened Octets
  import opened Wrappers

  /** `char::is_whitespace`: the characters of Unicode's White_Space property. */
  predicate IsSpace(c: char) {
    var n := c as int;
    9 <= n <= 13 || n == 0x20 || n == 0x85 || n == 0xA0 || n == 0x1680 || 0x2000 <= n <= 0x200A
    || n == 0x2028 || n == 0x2029 || n == 0x202F || n == 0x205F || n == 0x3000
  }

  predicate Blank(s: string) {
    forall i :: 0 <= i < |s| ==> IsSpace(s[i])
  }

  /** What a whitespace split can yield: not empty, and no whitespace inside. */
  predicate IsToken(s: string) {
    s != "" && forall i :: 0 <= i < |s| ==> !IsSpace(s[i])
  }

  function LowerAll(s: string): (r: string)
    ensures |r| == |s|
  {
    seq(|s|, i requires 0 <= i < |s| => Lower(s[i]))
  }

  /** The same word, whatever the case of its letters. */
  predicate SameWord(s: string, word: string) {
    |s| == |word| && forall i :: 0 <= i < |s| ==> SameLetter(s[i], word[i])
  }

  predicate NoCapitals(s: string) {
    forall i :: 0 <= i < |s| ==> !IsCapital(s[i])
  }

  /** Lowering a word finds it among words without capitals exactly when it is one of them, case aside. */
  lemma LowerAllIff(s: string, word: string)
    requires NoCapitals(word)
    ensures LowerAll(s) == word <==> SameWord(s, word)
  {
    hide Lower, SameLetter, IsCapital;
    if |s| == |word| {
      forall i | 0 <= i < |s| ensures LowerAll(s)[i] == word[i] <==> SameLetter(s[i], word[i]) {
        FoldIff(s[i], word[i]);
      }
    }
  }

  /** `WORDLIST`: 256 distinct words without capitals. */
  ghost predicate IsWordlist(table: seq<string>) {
    && |table| == 256
    && (forall i :: 0 <= i < 256 ==> IsToken(table[i]) && NoCapitals(table[i]))
    && (forall i, j :: 0 <= i < j < 256 ==> table[i] != table[j])
  }

  // ---- splitting at whitespace ----

  /** The length of the leading word. */
  function WordLength(s: string): (n: nat)
    ensures n <= |s| && (n < |s| ==> IsSpace(s[n])) && forall i :: 0 <= i < n ==> !IsSpace(s[i])
    decreases |s|
  {
    if s == "" || IsSpace(s[0]) then 0 else 1 + WordLength(s[1..])
  }

  /** `split_whitespace`. */
  function Tokens(s: string): seq<string>
    decreases |s|
  {
    if s == "" then []
    else if IsSpace(s[0]) then Tokens(s[1..])
    else
      var n := WordLength(s);
      [s[..n]] + Tokens(s[n..])
  }

  /** Words with a gap before, between and after them. */
  function Layout(words: seq<string>, gaps: seq<string>): string
    requires |gaps| == |words| + 1
    decreases |words|
  {
    if words == [] then gaps[0] else gaps[0] + words[0] + Layout(words[1..], gaps[1..])
  }

  /** Every gap is whitespace, and the inner ones are not empty. */
  ghost predicate Spacing(gaps: seq<string>) {
    && (forall i :: 0 <= i < |gaps| ==> Blank(gaps[i]))
    && (forall i :: 0 < i < |gaps| - 1 ==> gaps[i] != "")
  }

  ghost predicate LaidOut(s: string, words: seq<string>) {
    exists gaps: seq<string> :: |gaps| == |words| + 1 && Spacing(gaps) && s == Layout(words, gaps)
  }

  lemma {:induction false} TokensSkipBlank(blank: string, s: string)
    requires Blank(blank)
    ensures Tokens(blank + s) == Tokens(s)
    decreases |blank|
  {
    if blank == "" {
      assert blank + s == s;
    } else {
      assert (blank + s)[1..] == blank[1..] + s;
      TokensSkipBlank(blank[1..], s);
    }
  }

  lemma {:induction false} WordLengthIs(word: string, s: string)
    requires (forall i :: 0 <= i < |word| ==> !IsSpace(word[i])) && (s == "" || IsSpace(s[0]))
    ensures WordLength(word + s) == |word|
    decreases |word|
  {
    if word == "" {
      assert word + s == s;
    } else {
      assert (word + s)[1..] == word[1..] + s;
      WordLengthIs(word[1..], s);
    }
  }

  lemma TokensTakeWord(word: string, s: string)
    requires IsToken(word) && (s == "" || IsSpace(s[0]))
    ensures Tokens(word + s) == [word] + Tokens(s)
  {
    WordLengthIs(word, s);
    assert (word + s)[..|word|] == word && (word + s)[|word|..] == s;
  }

  lemma {:induction false} LayoutTokens(words: seq<string>, gaps: seq<string>)
    requires |gaps| == |words| + 1 && Spacing(gaps) && forall i :: 0 <= i < |words| ==> IsToken(words[i])
    ensures Tokens(Layout(words, gaps)) == words
    decreases |words|
  {
    if words == [] {
      assert gaps[0] + "" == gaps[0];
      TokensSkipBlank(gaps[0], "");
    } else {
      var rest := Layout(words[1..], gaps[1..]);
      assert gaps[0] + words[0] + rest == gaps[0] + (words[0] + rest);
      TokensSkipBlank(gaps[0], words[0] + rest);
      assert rest == "" || IsSpace(rest[0]) by {
        if |words| > 1 {
          assert gaps[1] != "";
        }
      }
      TokensTakeWord(words[0], rest);
      LayoutTokens(words[1..], gaps[1..]);
    }
  }

  lemma {:induction false} TokensAreTokens(s: string)
    ensures forall i :: 0 <= i < |Tokens(s)| ==> IsToken(Tokens(s)[i])
    decreases |s|
  {
    hide IsSpace;
    if s != "" {
      if IsSpace(s[0]) {
        TokensAreTokens(s[1..]);
      } else {
        TokensAreTokens(s[WordLength(s)..]);
      }
    }
  }

  lemma {:induction false} TokensLayout(s: string) returns (gaps: seq<string>)
    ensures |gaps| == |Tokens(s)| + 1 && Spacing(gaps) && s == Layout(Tokens(s), gaps)
    ensures s != "" && IsSpace(s[0]) ==> gaps[0] != ""
    decreases |s|
  {
    if s == "" {
      return [""];
    }
    hide Layout, Spacing, IsSpace, WordLength;
    if IsSpace(s[0]) {
      var rest := TokensLayout(s[1..]);
      gaps := LayoutAfterSpace(s[0], Tokens(s[1..]), rest);
      assert s == [s[0]] + s[1..];
    } else {
      var n := WordLength(s);
      var rest := TokensLayout(s[n..]);
      assert n < |s| ==> s[n..][0] == s[n];
      gaps := LayoutAfterWord(s[..n], Tokens(s[n..]), rest);
      assert s == s[..n] + s[n..];
    }
  }

  lemma LayoutAfterSpace(c: char, words: seq<string>, gaps: seq<string>) returns (gaps': seq<string>)
    requires IsSpace(c) && |gaps| == |words| + 1 && Spacing(gaps)
    ensures |gaps'| == |words| + 1 && Spacing(gaps') && gaps'[0] != ""
            && Layout(words, gaps') == [c] + Layout(words, gaps)
  {
    gaps' := [[c] + gaps[0]] + gaps[1..];
    assert gaps'[1..] == gaps[1..];
  }

  lemma LayoutAfterWord(word: string, words: seq<string>, gaps: seq<string>) returns (gaps': seq<string>)
    requires |gaps| == |words| + 1 && Spacing(gaps) && (words != [] ==> gaps[0] != "")
    ensures |gaps'| == |words| + 2 && Spacing(gaps') && gaps'[0] == ""
    ensures Layout([word] + words, gaps') == word + Layout(words, gaps)
  {
    gaps' := [""] + gaps;
    assert gaps'[1..] == gaps && ([word] + words)[1..] == words;
  }

  /** A string has exactly one reading as words between whitespace: its tokens. */
  lemma TokensIff(s: string, words: seq<string>)
    ensures Tokens(s) == words <==> LaidOut(s, words) && forall i :: 0 <= i < |words| ==> IsToken(words[i])
  {
    var gaps := TokensLayout(s);
    TokensAreTokens(s);
    assert LaidOut(s, Tokens(s));
    if LaidOut(s, words) && forall i :: 0 <= i < |words| ==> IsToken(words[i]) {
      var others: seq<string> :| |others| == |words| + 1 && Spacing(others) && s == Layout(words, others);
      LayoutTokens(words, others);
    }
  }

  // ---- rendering and parsing ----

  function WordsOf(table: seq<string>, bytes: seq<Octet>): seq<string>
    requires |table| == 256
  {
    seq(|bytes|, i requires 0 <= i < |bytes| => table[Value(bytes[i])])
  }

  /** `join(" ")`. */
  function Join(words: seq<string>): string
    decreases |words|
  {
    if words == [] then "" else if |words| == 1 then words[0] else words[0] + " " + Join(words[1..])
  }

  function BytesToWords(table: seq<string>, bytes: seq<Octet>): string
    requires |table| == 256
  {
    Join(WordsOf(table, bytes))
  }

  lemma {:induction false} JoinLaysOut(words: seq<string>) returns (gaps: seq<string>)
    ensures |gaps| == |words| + 1 && Spacing(gaps) && gaps[0] == "" && Join(words) == Layout(words, gaps)
    decreases |words|
  {
    if words == [] {
      gaps := [""];
    } else if |words| == 1 {
      gaps := ["", ""];
      assert gaps[1..] == [""] && words[1..] == [];
      assert Layout(words[1..], gaps[1..]) == "";
    } else {
      var rest := JoinLaysOut(words[1..]);
      gaps := ["", " "] + rest[1..];
      assert gaps[1..] == [" "] + rest[1..] && gaps[1..][1..] == rest[1..];
      assert Layout(words[1..], gaps[1..]) == " " + Layout(words[1..], rest);
    }
  }

  /** The first place a word has in the table. */
  function Position(table: seq<string>, word: string): (p: Option<nat>)
    ensures p.None? ==> word !in table
    ensures p.Some? ==> p.value < |table| && table[p.value] == word
    decreases |table|
  {
    if table == [] then None
    else if table[0] == word then Some(0)
    else
      var p := Position(table[1..], word);
      if p.None? then None else Some(p.value + 1)
  }

  lemma InTable(table: seq<string>, s: string)
    requires IsWordlist(table)
    ensures forall i :: 0 <= i < 256 ==> (LowerAll(s) == table[i] <==> SameWord(s, table[i]))
    ensures LowerAll(s) in table <==> exists i :: 0 <= i < 256 && SameWord(s, table[i])
  {
    hide LowerAll, SameWord;
    forall i | 0 <= i < 256 ensures LowerAll(s) == table[i] <==> SameWord(s, table[i]) {
      LowerAllIff(s, table[i]);
    }
  }

  /** Some token is no word of the table, in any case. */
  ghost predicate HasUnknownWord(table: seq<string>, phrase: string) {
    exists i :: 0 <= i < |Tokens(phrase)| && forall k :: 0 <= k < |table| ==> !SameWord(Tokens(phrase)[i], table[k])
  }

  /** `words_to_bytes`: the octets whose words the tokens are, in any case; any other token is refused. */
  method WordsToBytes(table: seq<string>, phrase: string) returns (r: Result<seq<Octet>, CryptoError>)
    requires IsWordlist(table)
    ensures r.Ok? ==> Spells(table, phrase, r.value)
    ensures r.Err? ==> r.error == ShareFormat && HasUnknownWord(table, phrase)
  {
    hide Tokens, LowerAll, SameWord, IsToken, NoCapitals;
    var tokens := Tokens(phrase);
    var out := [];
    for i := 0 to |tokens|
      invariant |out| == i && forall k :: 0 <= k < i ==> SameWord(tokens[k], table[Value(out[k])])
    {
      var p := Position(table, LowerAll(tokens[i]));
      InTable(table, tokens[i]);
      if p.None? {
        assert tokens[i] in tokens;
        return Err(ShareFormat);
      }
      ValueOfValue(p.value);
      out := out + [OfValue(p.value)];
    }
    r := Ok(out);
  }

  /** The tokens of a phrase are the words of `bytes`, case aside. */
  ghost predicate Spells(table: seq<string>, phrase: string, bytes: seq<Octet>)
    requires |table| == 256
  {
    |Tokens(phrase)| == |bytes| && forall i :: 0 <= i < |bytes| ==>
      SameWord(Tokens(phrase)[i], table[Value(bytes[i])])
  }

  /** No phrase spells two octet strings. */
  lemma SpellsOne(table: seq<string>, phrase: string, a: seq<Octet>, b: seq<Octet>)
    requires IsWordlist(table) && Spells(table, phrase, a) && Spells(table, phrase, b)
    ensures a == b
  {
    hide Tokens, LowerAll, SameWord, IsToken, NoCapitals, Value;
    forall i | 0 <= i < |a| ensures a[i] == b[i] {
      InTable(table, Tokens(phrase)[i]);
      assert table[Value(a[i])] == LowerAll(Tokens(phrase)[i]) == table[Value(b[i])];
      assert Value(a[i]) == Value(b[i]);
      OfValueValue(a[i]);
      OfValueValue(b[i]);
    }
  }

  lemma UnknownWordSpellsNothing(table: seq<string>, phrase: string, bytes: seq<Octet>)
    requires |table| == 256 && HasUnknownWord(table, phrase)
    ensures !Spells(table, phrase, bytes)
  {
    hide SameWord, Tokens;
    var i :| 0 <= i < |Tokens(phrase)| && forall k :: 0 <= k < |table| ==> !SameWord(Tokens(phrase)[i], table[k]);
    if i < |bytes| {
      assert !SameWord(Tokens(phrase)[i], table[Value(bytes[i])]);
    }
  }

  lemma SameWordKeepsTokens(s: string, word: string)
    requires SameWord(s, word) && IsToken(word)
    ensures IsToken(s)
  {
    hide IsLowerOf;
    forall i | 0 <= i < |s| ensures !IsSpace(s[i]) {
      LowerOfIff(s[i], word[i]);
      LowerOfIff(word[i], s[i]);
    }
  }

  /** A phrase spells some octets exactly when it is their words, in any case, with whitespace around and between. */
  lemma SpellsIff(table: seq<string>, phrase: string, bytes: seq<Octet>)
    requires IsWordlist(table)
    ensures Spells(table, phrase, bytes) <==>
              exists words: seq<string> :: |words| == |bytes| && LaidOut(phrase, words)
                && forall i :: 0 <= i < |bytes| ==> SameWord(words[i], table[Value(bytes[i])])
  {
    hide SameWord;
    if Spells(table, phrase, bytes) {
      TokensIff(phrase, Tokens(phrase));
    }
    if words: seq<string> :| |words| == |bytes| && LaidOut(phrase, words)
                             && forall i :: 0 <= i < |bytes| ==> SameWord(words[i], table[Value(bytes[i])]) {
      forall i | 0 <= i < |words| ensures IsToken(words[i]) {
        SameWordKeepsTokens(words[i], table[Value(bytes[i])]);
      }
      TokensIff(phrase, words);
    }
  }

  /** The rendered phrase spells what it renders. */
  lemma RenderedSpells(table: seq<string>, bytes: seq<Octet>)
    requires IsWordlist(table)
    ensures Spells(table, BytesToWords(table, bytes), bytes)
  {
    hide SameWord;
    var words := WordsOf(table, bytes);
    var gaps := JoinLaysOut(words);
    LayoutTokens(words, gaps);
    forall i | 0 <= i < |words| ensures SameWord(words[i], words[i]) {
      SameAsItself(words[i]);
    }
  }

  lemma SameAsItself(s: string)
    ensures SameWord(s, s)
  {}
}
