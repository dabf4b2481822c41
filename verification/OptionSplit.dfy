/** Splitting a command line into words; a backslash keeps the whitespace after it. */
module OptionSplit {

  /** Character.isWhitespace: separators except the non-breaking ones, and controls. */
  predicate IsWhitespace(c: char) {
    || '\U{0009}' <= c <= '\U{000D}' || '\U{001C}' <= c <= '\U{001F}'
    || c == ' ' || c == '\U{1680}' || ('\U{2000}' <= c <= '\U{200A}' && c != '\U{2007}')
    || c == '\U{2028}' || c == '\U{2029}' || c == '\U{205F}' || c == '\U{3000}'
  }

  /** The words of s when `word` has been read already. */
  function SplitFrom(word: string, s: string): (words: seq<string>)
    ensures forall w <- words :: w != ""
    decreases |s|
  {
    if s == "" then Ended(word)
    else if IsWhitespace(s[0]) then Ended(word) + SplitFrom("", s[1..])
    else if s[0] == '\\' && |s| > 1 && IsWhitespace(s[1]) then SplitFrom(word + [s[1]], s[2..])
    else SplitFrom(word + [s[0]], s[1..])
  }

  /** The list of a finished word, unless it is empty. */
  function Ended(word: string): seq<string> {
    if word == "" then [] else [word]
  }

  method SplitOptionString(s: string) returns (result: seq<string>)
    ensures result == SplitFrom("", s)
    ensures forall w <- result :: w != ""
  {
    result := [];
    var sb := "";
    var i := 0;
    while i < |s|
      invariant 0 <= i <= |s|
      invariant SplitFrom("", s) == result + SplitFrom(sb, s[i..])
    {
      var c := s[i];
      ghost var rest := s[i..];
      assert rest[0] == c && rest[1..] == s[i + 1..];
      if IsWhitespace(c) {
        if |sb| != 0 {
          result := result + [sb];
          sb := "";
        }
      } else if c == '\\' {
        if i + 1 < |s| && IsWhitespace(s[i + 1]) {
          assert rest[1] == s[i + 1] && rest[2..] == s[i + 2..];
          sb := sb + [s[i + 1]];
          i := i + 1;
        } else {
          sb := sb + ['\\'];
        }
      } else {
        sb := sb + [c];
      }
      i := i + 1;
    }
    if |sb| != 0 {
      result := result + [sb];
    }
  }

  // ---------------------------------------------------------------------
  // Escaping
  // ---------------------------------------------------------------------

  /** A word with a backslash before each whitespace. */
  function Escape(w: string): string {
    if w == "" then ""
    else (if IsWhitespace(w[0]) then ['\\', w[0]] else [w[0]]) + Escape(w[1..])
  }

  predicate AllWhitespace(s: string) {
    forall c <- s :: IsWhitespace(c)
  }

  /** Escaped words, each followed by its separator. */
  function Unsplit(words: seq<string>, seps: seq<string>): string
    requires |seps| == |words|
  {
    if words == [] then "" else Escape(words[0]) + (seps[0] + Unsplit(words[1..], seps[1..]))
  }

  /** Any whitespace separates; there may be none after the last word. */
  predicate Separators(words: seq<string>, seps: seq<string>) {
    && |seps| == |words|
    && (forall i | 0 <= i < |words| :: AllWhitespace(seps[i]))
    && (forall i | 0 <= i < |words| - 1 :: seps[i] != "")
  }

  predicate EndsInBackslash(w: string) {
    w != "" && w[|w| - 1] == '\\'
  }

  /** Words that survive: not empty, and none that is followed by whitespace ends in a
      backslash. */
  predicate Splittable(words: seq<string>, seps: seq<string>)
    requires |seps| == |words|
  {
    && (forall i | 0 <= i < |words| :: words[i] != "")
    && (forall i | 0 <= i < |words| :: EndsInBackslash(words[i]) ==> seps[i] == "")
  }

  /** Reading one escaped character adds it to the word. */
  lemma SplitOne(word: string, c: char, tail: string)
    requires tail == "" || c != '\\' || !IsWhitespace(tail[0])
    ensures SplitFrom(word, (if IsWhitespace(c) then ['\\', c] else [c]) + tail) == SplitFrom(word + [c], tail)
  {
    var s := (if IsWhitespace(c) then ['\\', c] else [c]) + tail;
    if IsWhitespace(c) {
      assert s[0] == '\\' && s[1] == c && s[2..] == tail;
    } else {
      assert s[0] == c && s[1..] == tail;
    }
  }

  lemma WordOne(word: string, w: string)
    requires w != ""
    ensures (word + [w[0]]) + w[1..] == word + w
    ensures EndsInBackslash(w[1..]) ==> EndsInBackslash(w)
    ensures w[1..] == "" && w[0] == '\\' ==> EndsInBackslash(w)
  {
  }

  /** What follows an escaped character in a word. */
  lemma TailStarts(w: string, rest: string)
    requires w == "" ==> rest == "" || !IsWhitespace(rest[0])
    ensures var tail := Escape(w) + rest; tail == "" || !IsWhitespace(tail[0])
  {
  }

  lemma EscapeOne(w: string, rest: string)
    requires w != ""
    ensures Escape(w) + rest == (if IsWhitespace(w[0]) then ['\\', w[0]] else [w[0]]) + (Escape(w[1..]) + rest)
  {
  }

  /** Reading an escaped word, when no space that is not part of it follows its
      last backslash, adds the word to what was read. */
  lemma {:induction false} SplitEscaped(word: string, w: string, rest: string)
    requires rest == "" || !EndsInBackslash(w)
    ensures SplitFrom(word, Escape(w) + rest) == SplitFrom(word + w, rest)
    decreases |w|
  {
    if w == "" {
      assert Escape(w) + rest == rest && word + w == word;
    } else {
      var c, others := w[0], w[1..];
      EscapeOne(w, rest);
      WordOne(word, w);
      if others != "" || rest == "" {
        TailStarts(others, rest);
      }
      hide *;
      SplitEscaped(word + [c], others, rest);
      SplitOne(word, c, Escape(others) + rest);
    }
  }

  /** Whitespace ends the word being read, and is skipped. */
  lemma {:induction false} SplitSkips(word: string, sep: string, rest: string)
    requires AllWhitespace(sep) && (sep != "" || word == "")
    ensures SplitFrom(word, sep + rest) == Ended(word) + SplitFrom("", rest)
    decreases |sep|
  {
    if sep == "" {
      assert sep + rest == rest;
    } else {
      assert sep[0] in sep && (sep + rest)[1..] == sep[1..] + rest;
      assert forall c <- sep[1..] :: c in sep;
      SplitSkips("", sep[1..], rest);
    }
  }

  /** A word that ends in a backslash swallows the whitespace after it. */
  lemma {:induction false} SplitSwallows(word: string, w: string, c: char, rest: string)
    requires EndsInBackslash(w) && IsWhitespace(c)
    ensures SplitFrom(word, Escape(w) + ([c] + rest)) == SplitFrom(word + w[..|w| - 1] + [c], rest)
  {
    var init := w[..|w| - 1];
    var last := ['\\'] + ([c] + rest);
    EscapeAppend(init, "\\");
    assert init + "\\" == w && Escape("\\") == "\\";
    assert Escape(w) + ([c] + rest) == Escape(init) + last;
    if EndsInBackslash(init) {
      SplitEscapedThenBackslash(word, init, [c] + rest);
    } else {
      SplitEscaped(word, init, last);
    }
    assert last[1] == c && last[2..] == rest;
  }

  lemma {:induction false} EscapeAppend(a: string, b: string)
    ensures Escape(a + b) == Escape(a) + Escape(b)
    decreases |a|
  {
    if a == "" {
      assert a + b == b;
    } else {
      assert (a + b)[1..] == a[1..] + b;
      EscapeAppend(a[1..], b);
    }
  }

  /** A backslash before a backslash is kept. */
  lemma {:induction false} SplitEscapedThenBackslash(word: string, w: string, rest: string)
    ensures SplitFrom(word, Escape(w) + (['\\'] + rest)) == SplitFrom(word + w, ['\\'] + rest)
    decreases |w|
  {
    var after := ['\\'] + rest;
    if w == "" {
      assert Escape(w) + after == after && word + w == word;
    } else {
      var c, others := w[0], w[1..];
      EscapeOne(w, after);
      WordOne(word, w);
      TailStarts(others, after);
      hide *;
      SplitEscapedThenBackslash(word + [c], others, rest);
      SplitOne(word, c, Escape(others) + after);
    }
  }

  /** A word being read is a prefix of the first word that comes out. */
  lemma {:induction false} FirstWordGrows(word: string, s: string)
    requires word != ""
    ensures var words := SplitFrom(word, s); words != [] && word <= words[0]
    decreases |s|
  {
    if s != "" && !IsWhitespace(s[0]) {
      if s[0] == '\\' && |s| > 1 && IsWhitespace(s[1]) {
        FirstWordGrows(word + [s[1]], s[2..]);
      } else {
        FirstWordGrows(word + [s[0]], s[1..]);
      }
    }
  }

  /** A word that ends in a backslash does not come back when whitespace follows. */
  lemma FirstWordLost(w: string, c: char, rest: string)
    requires EndsInBackslash(w) && IsWhitespace(c)
    ensures var words := SplitFrom("", Escape(w) + ([c] + rest)); words == [] || words[0] != w
  {
    var init := w[..|w| - 1];
    SplitSwallows("", w, c, rest);
    assert "" + init + [c] == init + [c];
    FirstWordGrows(init + [c], rest);
    assert (init + [c])[|init|] == c && w[|init|] == '\\';
  }

  /** The first word, when it survives. */
  lemma SplitFirst(w: string, sep: string, others: string)
    requires w != "" && AllWhitespace(sep) && (EndsInBackslash(w) ==> sep == "") && (sep == "" ==> others == "")
    ensures SplitFrom("", Escape(w) + (sep + others)) == [w] + SplitFrom("", others)
  {
    SplitEscaped("", w, sep + others);
    assert "" + w == w;
    if sep != "" {
      SplitSkips(w, sep, others);
    }
  }

  lemma SeparatorsOfRest(words: seq<string>, seps: seq<string>)
    requires words != [] && Separators(words, seps)
    ensures Separators(words[1..], seps[1..])
    ensures seps[0] == "" ==> Unsplit(words[1..], seps[1..]) == ""
    ensures Splittable(words, seps) <==>
            words[0] != "" && (EndsInBackslash(words[0]) ==> seps[0] == "") && Splittable(words[1..], seps[1..])
  {
    var w, s := words[1..], seps[1..];
    assert forall i | 0 <= i < |w| :: w[i] == words[i + 1] && s[i] == seps[i + 1];
    if Splittable(w, s) {
      assert forall i | 0 < i < |words| :: words[i] == w[i - 1] && seps[i] == s[i - 1];
    }
  }

  lemma {:induction false} SplitUnsplit(words: seq<string>, seps: seq<string>)
    requires Separators(words, seps) && Splittable(words, seps)
    ensures SplitFrom("", Unsplit(words, seps)) == words
    decreases |words|
  {
    if words != [] {
      SeparatorsOfRest(words, seps);
      SplitFirst(words[0], seps[0], Unsplit(words[1..], seps[1..]));
      SplitUnsplit(words[1..], seps[1..]);
    }
  }

  /** Only splittable lists come back. */
  lemma {:induction false} OnlySplittable(words: seq<string>, seps: seq<string>)
    requires Separators(words, seps) && SplitFrom("", Unsplit(words, seps)) == words
    ensures Splittable(words, seps)
    decreases |words|
  {
    if words != [] {
      var w, sep, others := words[0], seps[0], Unsplit(words[1..], seps[1..]);
      SeparatorsOfRest(words, seps);
      assert w in words && w != "";
      if EndsInBackslash(w) && sep != "" {
        assert sep[0] in sep && sep + others == [sep[0]] + (sep[1..] + others);
        FirstWordLost(w, sep[0], sep[1..] + others);
        assert false;
      } else {
        SplitFirst(w, sep, others);
        assert words[1..] == SplitFrom("", others);
        OnlySplittable(words[1..], seps[1..]);
      }
    }
  }

  /** Escaping words, following each with whitespace of any kind and splitting again
      returns exactly the splittable lists. */
  lemma SplitInvertsIff(words: seq<string>, seps: seq<string>)
    requires Separators(words, seps)
    ensures SplitFrom("", Unsplit(words, seps)) == words <==> Splittable(words, seps)
  {
    if Splittable(words, seps) {
      SplitUnsplit(words, seps);
    } else if SplitFrom("", Unsplit(words, seps)) == words {
      OnlySplittable(words, seps);
    }
  }
}
