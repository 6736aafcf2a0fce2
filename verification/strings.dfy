/**
 String operations the extension relies on: `Array.prototype.join`, the
 default ordering of `Array.prototype.sort`, and the way `/bin/sh` splits the
 command lines the extension hands to `child_process.exec` into words.
 */
module Strings {

  /** `xs.join(sep)`: the elements separated by `sep`, and "" for no elements. */
  function Join(xs: seq<string>, sep: string): string
  {
    if |xs| == 0 then ""
    else if |xs| == 1 then xs[0]
    else xs[0] + sep + Join(xs[1..], sep)
  }

  // ---------------------------------------------------------------------------
  // The default `sort()` order: lexicographic comparison of characters
  // ---------------------------------------------------------------------------

  /** `a` sorts strictly before `b`: a proper prefix, or smaller at the first difference. */
  predicate Less(a: string, b: string)
    decreases |a|
  {
    && |b| > 0
    && (|a| == 0 || a[0] < b[0] || (a[0] == b[0] && Less(a[1..], b[1..])))
  }

  lemma {:induction false} LessIrreflexive(a: string)
    ensures !Less(a, a)
    decreases |a|
  {
    if |a| > 0 {
      LessIrreflexive(a[1..]);
    }
  }

  lemma {:induction false} LessTransitive(a: string, b: string, c: string)
    requires Less(a, b) && Less(b, c)
    ensures Less(a, c)
    decreases |a|
  {
    if |a| > 0 && a[0] == b[0] && b[0] == c[0] {
      LessTransitive(a[1..], b[1..], c[1..]);
    }
  }

  lemma {:induction false} LessTotal(a: string, b: string)
    ensures a == b || Less(a, b) || Less(b, a)
    decreases |a|
  {
    if |a| > 0 && |b| > 0 && a[0] == b[0] {
      LessTotal(a[1..], b[1..]);
      if a[1..] == b[1..] {
        assert a == [a[0]] + a[1..] && b == [b[0]] + b[1..];
      }
    }
  }

  lemma LessAsymmetric(a: string, b: string)
    requires Less(a, b)
    ensures !Less(b, a) && a != b
  {
    if Less(b, a) {
      LessTransitive(a, b, a);
      LessIrreflexive(a);
    }
    LessIrreflexive(a);
  }

  // ---------------------------------------------------------------------------
  // Word splitting of a shell command line
  // ---------------------------------------------------------------------------

  /**
   The characters at which a command line is split into words: blank, tab
   or newline. A newline also ends a shell command; no modelled command line
   contains one.
   */
  predicate IsBlank(c: char)
  {
    c == ' ' || c == '\t' || c == '\n'
  }

  /** A character the shell always takes literally: a letter, a digit, or one of `-_./:+,@%`. */
  predicate IsPlainChar(c: char)
  {
    || ('a' <= c <= 'z') || ('A' <= c <= 'Z') || ('0' <= c <= '9')
    || c == '-' || c == '_' || c == '.' || c == '/' || c == ':' || c == '+' || c == ',' || c == '@' || c == '%'
  }

  /** A non-empty string the shell passes through as exactly one argument. */
  predicate IsToken(t: string)
  {
    |t| > 0 && forall i :: 0 <= i < |t| ==> IsPlainChar(t[i])
  }

  function Flush(word: string): seq<string>
  {
    if word == "" then [] else [word]
  }

  /** Splits `s` at blanks, dropping empty fields, with `word` the field read so far. */
  function SplitFrom(s: string, word: string): seq<string>
    decreases |s|
  {
    if |s| == 0 then Flush(word)
    else if IsBlank(s[0]) then Flush(word) + SplitFrom(s[1..], "")
    else SplitFrom(s[1..], word + [s[0]])
  }

  /** The argument vector the shell builds from a command line of plain characters. */
  function Words(s: string): seq<string>
  {
    SplitFrom(s, "")
  }

  lemma {:induction false} SplitFromSpace(a: string, b: string, word: string)
    ensures SplitFrom(a + " " + b, word) == SplitFrom(a, word) + Words(b)
    decreases |a|
  {
    if |a| == 0 {
      assert a + " " + b == [' '] + b;
      assert (a + " " + b)[1..] == b;
    } else {
      assert (a + " " + b)[0] == a[0];
      assert (a + " " + b)[1..] == a[1..] + " " + b;
      if IsBlank(a[0]) {
        SplitFromSpace(a[1..], b, "");
      } else {
        SplitFromSpace(a[1..], b, word + [a[0]]);
      }
    }
  }

  /** A single space splits a command line into the words of either side. */
  lemma WordsSpace(a: string, b: string)
    ensures Words(a + " " + b) == Words(a) + Words(b)
  {
    SplitFromSpace(a, b, "");
  }

  lemma {:induction false} SplitFromNoBlank(t: string, word: string)
    requires forall i :: 0 <= i < |t| ==> !IsBlank(t[i])
    ensures SplitFrom(t, word) == Flush(word + t)
    decreases |t|
  {
    if |t| == 0 {
      assert word + t == word;
    } else {
      assert word + [t[0]] + t[1..] == word + t;
      SplitFromNoBlank(t[1..], word + [t[0]]);
    }
  }

  lemma WordsToken(t: string)
    requires IsToken(t)
    ensures Words(t) == [t]
  {
    SplitFromNoBlank(t, "");
    assert "" + t == t;
  }

  /** A token after a single space is one more word. */
  lemma WordsAppendToken(a: string, t: string)
    requires IsToken(t)
    ensures Words(a + " " + t) == Words(a) + [t]
  {
    WordsSpace(a, t);
    WordsToken(t);
  }

  /** Five tokens separated by single spaces split back into the five. */
  lemma FiveWords(a: string, b: string, c: string, d: string, e: string)
    requires IsToken(a) && IsToken(b) && IsToken(c) && IsToken(d) && IsToken(e)
    ensures Words(a + " " + b + " " + c + " " + d + " " + e) == [a, b, c, d, e]
  {
    WordsToken(a);
    WordsAppendToken(a, b);
    WordsAppendToken(a + " " + b, c);
    WordsAppendToken(a + " " + b + " " + c, d);
    WordsAppendToken(a + " " + b + " " + c + " " + d, e);
  }

  /** Six tokens separated by single spaces split back into the six. */
  lemma SixWords(a: string, b: string, c: string, d: string, e: string, f: string)
    requires IsToken(a) && IsToken(b) && IsToken(c) && IsToken(d) && IsToken(e) && IsToken(f)
    ensures Words(a + " " + b + " " + c + " " + d + " " + e + " " + f) == [a, b, c, d, e, f]
  {
    FiveWords(a, b, c, d, e);
    WordsAppendToken(a + " " + b + " " + c + " " + d + " " + e, f);
  }
}
