/** Splitting text into words on whitespace and joining words with single spaces. */
module Text {

  /** The characters `str.split()` separates on. */
  predicate IsSpace(c: char) {
    var code := c as int;
    || 0x09 <= code <= 0x0d
    || 0x1c <= code <= 0x20
    || code == 0x85
    || code == 0xa0
    || code == 0x1680
    || 0x2000 <= code <= 0x200a
    || code == 0x2028
    || code == 0x2029
    || code == 0x202f
    || code == 0x205f
    || code == 0x3000
  }

  predicate IsWord(w: string) {
    |w| > 0 && forall i | 0 <= i < |w| :: !IsSpace(w[i])
  }

  /** How many characters come before the first whitespace. */
  function WordLength(s: string): (n: nat)
    ensures n <= |s|
    ensures forall i | 0 <= i < n :: !IsSpace(s[i])
    ensures n < |s| ==> IsSpace(s[n])
  {
    if s == [] || IsSpace(s[0]) then 0 else 1 + WordLength(s[1..])
  }

  function Split(s: string): seq<string> {
    if s == [] then []
    else if IsSpace(s[0]) then Split(s[1..])
    else [s[..WordLength(s)]] + Split(s[WordLength(s)..])
  }

  function Join(words: seq<string>): string {
    if |words| == 0 then ""
    else if |words| == 1 then words[0]
    else words[0] + " " + Join(words[1..])
  }

  lemma {:induction false} SplitYieldsWords(s: string)
    ensures forall w | w in Split(s) :: IsWord(w)
    decreases |s|
  {
    if s != [] {
      if IsSpace(s[0]) {
        SplitYieldsWords(s[1..]);
      } else {
        SplitYieldsWords(s[WordLength(s)..]);
      }
    }
  }

  lemma {:induction false} WordLengthOfPrefix(w: string, rest: string)
    requires (forall i | 0 <= i < |w| :: !IsSpace(w[i])) && (rest == [] || IsSpace(rest[0]))
    ensures WordLength(w + rest) == |w|
  {
    if w == [] {
      assert w + rest == rest;
    } else {
      WordLengthOfPrefix(w[1..], rest);
      assert (w + rest)[1..] == w[1..] + rest;
    }
  }

  /** Splitting what was joined gives the words back. */
  lemma {:induction false} SplitAfterJoin(words: seq<string>)
    requires forall w | w in words :: IsWord(w)
    ensures Split(Join(words)) == words
  {
    if |words| > 0 {
      assert words[0] in words;
    }
    if |words| == 1 {
      WordLengthOfPrefix(words[0], "");
      assert words[0] + "" == words[0];
    } else if |words| > 1 {
      var w, rest := words[0], Join(words[1..]);
      SplitAfterJoin(words[1..]);
      WordLengthOfPrefix(w, " " + rest);
      assert Join(words) == w + (" " + rest);
      assert (w + (" " + rest))[|w|..] == " " + rest;
      assert (" " + rest)[1..] == rest;
      assert Split(" " + rest) == Split(rest);
    }
  }

  // ----- What splitting and joining mean -----

  /** Whitespace only separates: what stands before it and what stands after it are split on their own. */
  lemma {:induction false} SplitAtSpace(a: string, c: char, b: string)
    requires IsSpace(c)
    ensures Split(a + [c] + b) == Split(a) + Split(b)
    decreases |a|
  {
    hide IsSpace;
    var s := a + [c] + b;
    if a == [] {
      assert s[1..] == b;
    } else if IsSpace(a[0]) {
      SplitAtSpace(a[1..], c, b);
      assert s[1..] == a[1..] + [c] + b;
    } else {
      var n := WordLength(a);
      WordLengthOfPrefix(a[..n], a[n..] + [c] + b);
      assert s == a[..n] + (a[n..] + [c] + b);
      SplitAtSpace(a[n..], c, b);
      assert s[n..] == a[n..] + [c] + b;
    }
  }

  /** Text without whitespace is one word, or none if it is empty. */
  lemma SplitOfWord(w: string)
    requires forall i | 0 <= i < |w| :: !IsSpace(w[i])
    ensures Split(w) == if w == "" then [] else [w]
  {
    WordLengthOfPrefix(w, "");
    assert w + "" == w;
  }

  /** A way of splitting that keeps words whole and lets whitespace separate. */
  ghost predicate SplitsOnSpace(split: string -> seq<string>) {
    && split("") == []
    && (forall w | IsWord(w) :: split(w) == [w])
    && (forall a, c, b | IsSpace(c) :: split(a + [c] + b) == split(a) + split(b))
  }

  /** There is only one such way. */
  lemma {:induction false} SplitIsTheOnly(split: string -> seq<string>, s: string)
    requires SplitsOnSpace(split)
    ensures split(s) == Split(s)
    decreases |s|
  {
    var n := WordLength(s);
    if n == |s| {
      SplitOfWord(s);
      assert s != "" ==> IsWord(s);
    } else {
      assert s == s[..n] + [s[n]] + s[n + 1..];
      SplitIsTheOnly(split, s[..n]);
      SplitIsTheOnly(split, s[n + 1..]);
      SplitAtSpace(s[..n], s[n], s[n + 1..]);
    }
  }

  /** Joining puts one space between words and adds nothing else. */
  lemma {:induction false} JoinPutsOneSpace(a: seq<string>, b: seq<string>)
    ensures forall w :: Join([w]) == w
    ensures a != [] && b != [] ==> Join(a + b) == Join(a) + " " + Join(b)
  {
    if |a| == 1 {
      assert (a + b)[1..] == b;
    } else if |a| > 1 && b != [] {
      JoinPutsOneSpace(a[1..], b);
      assert (a + b)[1..] == a[1..] + b;
    }
  }

  /** The 29 whitespace characters, by code point. */
  lemma WhitespaceCharacters(c: char)
    ensures IsSpace(c) <==> c as int in {
      9, 10, 11, 12, 13, 28, 29, 30, 31, 32, 133, 160, 5760, 8192, 8193, 8194, 8195, 8196, 8197, 8198, 8199,
      8200, 8201, 8202, 8232, 8233, 8239, 8287, 12288}
  {
  }
}
