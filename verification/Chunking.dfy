/** The ingestion pipeline's chunker: overlapping word windows with an early stop. */
module Chunking {
  import opened Text

  function Max(a: int, b: int): int {
    if a >= b then a else b
  }

  function Min(a: int, b: int): int {
    if a <= b then a else b
  }

  /** Where a slice bound lands in a sequence of length n: negative bounds count from the end. */
  function Clip(bound: int, n: nat): (k: nat)
    ensures k <= n
  {
    if bound >= n then n
    else if bound >= 0 then bound
    else Max(0, n + bound)
  }

  /** `s[lo:hi]`. */
  function Slice<T>(s: seq<T>, lo: nat, hi: int): seq<T> {
    var l, h := Clip(lo, |s|), Clip(hi, |s|);
    if l < h then s[l..h] else []
  }

  /** The window the loop cuts out at position s. */
  function WindowAt<T>(words: seq<T>, size: int, s: nat): seq<T> {
    Slice(words, s, s + size)
  }

  function StepSize(size: int, overlap: int): (step: nat)
    ensures step >= 1
  {
    Max(1, size - overlap)
  }

  /** The positions the loop visits, from `start` on: one per step, until a window reaches the end. */
  function Starts(n: nat, size: int, step: nat, start: nat): seq<nat>
    requires step >= 1
    decreases n - start
  {
    if start >= n then []
    else if start + size >= n then [start]
    else [start] + Starts(n, size, step, start + step)
  }

  /** The windows at some positions; an empty window is not kept. */
  function WindowsAt<T>(words: seq<T>, size: int, starts: seq<nat>): seq<seq<T>> {
    if starts == [] then []
    else
      var window := WindowAt(words, size, starts[0]);
      (if window != [] then [window] else []) + WindowsAt(words, size, starts[1..])
  }

  function Windows<T>(words: seq<T>, size: int, step: nat): seq<seq<T>>
    requires step >= 1
  {
    WindowsAt(words, size, Starts(|words|, size, step, 0))
  }

  lemma NoWindows<T>(words: seq<T>, size: int, step: nat, start: nat)
    requires step >= 1 && start >= |words|
    ensures WindowsAt(words, size, Starts(|words|, size, step, start)) == []
  {
  }

  lemma WindowInside<T>(words: seq<T>, size: int, s: nat)
    requires s < |words| && size >= 1
    ensures WindowAt(words, size, s) == words[s..Min(s + size, |words|)]
  {
  }

  /**
   * A size below one makes the upper bound of the slice count from the end: as long as
   * it is negative, the window stops that far before the end of the text; otherwise
   * the window is empty.
   */
  lemma WindowOfSizeBelowOne<T>(words: seq<T>, size: int, s: nat)
    requires size < 1 && s < |words|
    ensures WindowAt(words, size, s) ==
      if s + size < 0 && |words| + size > 0 then words[s..|words| + s + size] else []
  {
  }

  lemma WindowsUnfold<T>(words: seq<T>, size: int, step: nat, start: nat)
    requires step >= 1 && start < |words|
    ensures var window := WindowAt(words, size, start);
      WindowsAt(words, size, Starts(|words|, size, step, start)) ==
        (if window != [] then [window] else [])
        + (if start + size >= |words| then [] else WindowsAt(words, size, Starts(|words|, size, step, start + step)))
  {
    var starts := Starts(|words|, size, step, start);
    assert starts[0] == start;
    assert starts[1..] == if start + size >= |words| then [] else Starts(|words|, size, step, start + step);
  }

  function JoinAll(windows: seq<seq<string>>): (chunks: seq<string>)
    ensures |chunks| == |windows| && forall i | 0 <= i < |windows| :: chunks[i] == Join(windows[i])
  {
    seq(|windows|, i requires 0 <= i < |windows| => Join(windows[i]))
  }

  function SplitAll(chunks: seq<string>): (windows: seq<seq<string>>)
    ensures |windows| == |chunks| && forall i | 0 <= i < |chunks| :: windows[i] == Split(chunks[i])
  {
    seq(|chunks|, i requires 0 <= i < |chunks| => Split(chunks[i]))
  }

  function Chunks(text: string, size: int, overlap: int): seq<string> {
    JoinAll(Windows(Split(text), size, StepSize(size, overlap)))
  }

  method ChunkText(text: string, size: int := 120, overlap: int := 20) returns (chunks: seq<string>)
    ensures chunks == Chunks(text, size, overlap)
  {
    hide *;
    var words := Split(text);
    var step := StepSize(size, overlap);
    ChunksFromWindows(text, size, overlap);
    if words == [] {
      NoWindows(words, size, step, 0);
      return [];
    }
    chunks := [];
    ghost var windows: seq<seq<string>> := [];
    var start: nat := 0;
    while start < |words|
      invariant chunks == JoinAll(windows)
      invariant WindowsAt(words, size, Starts(|words|, size, step, 0))
             == windows + WindowsAt(words, size, Starts(|words|, size, step, start))
      decreases |words| - start
    {
      WindowsUnfold(words, size, step, start);
      var window := WindowAt(words, size, start);
      if window != [] {
        chunks := chunks + [Join(window)];
        windows := windows + [window];
      }
      if start + size >= |words| {
        return;
      }
      start := start + step;
    }
    NoWindows(words, size, step, start);
  }

  lemma ChunksFromWindows(text: string, size: int, overlap: int)
    ensures Chunks(text, size, overlap)
         == JoinAll(WindowsAt(Split(text), size, Starts(|Split(text)|, size, StepSize(size, overlap), 0)))
  {
  }

  // ----- Nothing is lost -----

  lemma {:induction false} StartsAreAhead(n: nat, size: int, step: nat, start: nat)
    requires step >= 1
    ensures forall s | s in Starts(n, size, step, start) :: start <= s < n && (s == start || s >= start + step)
    decreases n - start
  {
    if start < n && start + size < n {
      StartsAreAhead(n, size, step, start + step);
    }
  }

  /** The positions of an n-word text: cutting them into windows shows which words each window holds. */
  function Positions(n: nat): (p: seq<nat>)
    ensures |p| == n && forall i | 0 <= i < n :: p[i] == i
  {
    seq(n, i => i)
  }

  function PositionWindows(n: nat, size: int, overlap: int): seq<seq<nat>> {
    Windows(Positions(n), size, StepSize(size, overlap))
  }

  /** The window's words are those at the given positions, in order. */
  predicate ReadsAs<T(==)>(words: seq<T>, positions: seq<nat>, window: seq<T>) {
    |window| == |positions| && forall k | 0 <= k < |positions| :: positions[k] < |words| && window[k] == words[positions[k]]
  }

  predicate AllReadAs<T(==)>(words: seq<T>, positions: seq<seq<nat>>, windows: seq<seq<T>>) {
    |windows| == |positions| && forall k | 0 <= k < |positions| :: ReadsAs(words, positions[k], windows[k])
  }

  lemma {:induction false} WindowsReadPositions<T>(words: seq<T>, size: int, starts: seq<nat>)
    ensures AllReadAs(words, WindowsAt(Positions(|words|), size, starts), WindowsAt(words, size, starts))
  {
    hide WindowAt, ReadsAs;
    if starts != [] {
      WindowsReadPositions(words, size, starts[1..]);
      WindowReadsPositions(words, size, starts[0]);
    }
  }

  lemma WindowReadsPositions<T>(words: seq<T>, size: int, s: nat)
    ensures ReadsAs(words, WindowAt(Positions(|words|), size, s), WindowAt(words, size, s))
    ensures WindowAt(words, size, s) == [] <==> WindowAt(Positions(|words|), size, s) == []
  {
  }

  /** The chunks of a text, split again, are its words at the position windows. */
  lemma ChunksReadPositions(text: string, size: int, overlap: int)
    ensures AllReadAs(Split(text), PositionWindows(|Split(text)|, size, overlap), SplitAll(Chunks(text, size, overlap)))
  {
    ChunksSplitToWindows(text, size, overlap);
    WindowsReadPositions(Split(text), size, Starts(|Split(text)|, size, StepSize(size, overlap), 0));
  }

  /** Position i of an n-word text lies in the window at s. */
  predicate InWindow(n: nat, size: int, s: nat, i: nat) {
    s <= i < Clip(s + size, n)
  }

  /** The window holds exactly the positions the loop cuts out at s. */
  ghost predicate IsWindowAt(n: nat, size: int, s: nat, window: seq<nat>) {
    forall i: nat :: i in window <==> InWindow(n, size, s, i)
  }

  lemma {:induction false} WindowsAreAtStarts<T>(words: seq<T>, size: int, starts: seq<nat>)
    ensures forall w | w in WindowsAt(words, size, starts) :: exists s | s in starts :: w == WindowAt(words, size, s)
    ensures forall s | s in starts && WindowAt(words, size, s) != [] :: WindowAt(words, size, s) in WindowsAt(words, size, starts)
  {
    hide WindowAt;
    if starts != [] {
      WindowsAreAtStarts(words, size, starts[1..]);
      assert forall s | s in starts[1..] :: s in starts;
      assert starts[0] in starts;
    }
  }

  /** Every window is the one at some start, and every start with a word in its window has that window. */
  lemma WindowsComeFromStarts(n: nat, size: int, starts: seq<nat>)
    ensures var ws := WindowsAt(Positions(n), size, starts);
      && (forall w | w in ws :: exists s | s in starts :: IsWindowAt(n, size, s, w))
      && (forall s, i: nat | s in starts && InWindow(n, size, s, i) ::
            exists w | w in ws :: IsWindowAt(n, size, s, w))
  {
    hide WindowAt, InWindow, WindowsAt, IsWindowAt;
    var p := Positions(n);
    WindowsAreAtStarts(p, size, starts);
    forall s | s in starts
      ensures IsWindowAt(n, size, s, WindowAt(p, size, s))
    {
      WindowHolds(n, size, s);
    }
    forall s, i: nat | s in starts && InWindow(n, size, s, i)
      ensures WindowAt(p, size, s) in WindowsAt(p, size, starts)
    {
      WindowHolds(n, size, s);
      InWindowMember(n, size, s, WindowAt(p, size, s), i);
    }
  }

  lemma InWindowMember(n: nat, size: int, s: nat, w: seq<nat>, i: nat)
    requires IsWindowAt(n, size, s, w) && InWindow(n, size, s, i)
    ensures i in w
  {
  }

  lemma WindowHolds(n: nat, size: int, s: nat)
    ensures IsWindowAt(n, size, s, WindowAt(Positions(n), size, s))
  {
    var p, l, h := Positions(n), Clip(s, n), Clip(s + size, n);
    assert WindowAt(p, size, s) == if l < h then p[l..h] else [];
    forall i: nat
      ensures i in WindowAt(p, size, s) <==> InWindow(n, size, s, i)
    {
      if InWindow(n, size, s, i) {
        assert p[l..h][i - s] == i;
      }
    }
  }

  /** Some window holds position i. */
  predicate Kept(windows: seq<seq<nat>>, i: nat) {
    exists w | w in windows :: i in w
  }

  predicate KeepsEveryWord(n: nat, windows: seq<seq<nat>>) {
    forall i: nat | i < n :: Kept(windows, i)
  }

  lemma KeptFromStarts(n: nat, size: int, overlap: int, i: nat)
    ensures Kept(PositionWindows(n, size, overlap), i)
       <==> exists s | s in Starts(n, size, StepSize(size, overlap), 0) :: InWindow(n, size, s, i)
  {
    hide InWindow, WindowsAt, Starts, StepSize;
    var starts := Starts(n, size, StepSize(size, overlap), 0);
    assert PositionWindows(n, size, overlap) == WindowsAt(Positions(n), size, starts);
    WindowsComeFromStarts(n, size, starts);
  }

  lemma {:induction false} WindowsCoverTheRest(n: nat, size: int, step: nat, start: nat, i: nat)
    requires 1 <= step <= size && start <= i < n
    ensures exists s | s in Starts(n, size, step, start) :: InWindow(n, size, s, i)
    decreases n - start
  {
    var starts := Starts(n, size, step, start);
    assert starts[0] == start;
    if i < start + size {
      assert InWindow(n, size, start, i);
    } else {
      WindowsCoverTheRest(n, size, step, start + step, i);
      var s :| s in Starts(n, size, step, start + step) && InWindow(n, size, s, i);
      assert s in starts;
    }
  }

  /**
   * The chunks of a text are its words at windows of positions, and every position
   * is in one of them exactly when windows are non-empty and leave no gaps.
   */
  lemma LosslessIff(text: string, size: int, overlap: int)
    ensures var n := |Split(text)|; var ws := PositionWindows(n, size, overlap);
      && AllReadAs(Split(text), ws, SplitAll(Chunks(text, size, overlap)))
      && (KeepsEveryWord(n, ws) <==> n == 0 || (size >= 1 && (overlap >= 0 || n <= size)))
  {
    hide *;
    ChunksReadPositions(text, size, overlap);
    PositionsKeptIff(|Split(text)|, size, overlap);
  }

  lemma PositionsKeptIff(n: nat, size: int, overlap: int)
    ensures KeepsEveryWord(n, PositionWindows(n, size, overlap)) <==> n == 0 || (size >= 1 && (overlap >= 0 || n <= size))
  {
    hide PositionWindows, Kept;
    var step := StepSize(size, overlap);
    var starts := Starts(n, size, step, 0);
    StartsAreAhead(n, size, step, 0);
    forall i: nat | i < n
      ensures Kept(PositionWindows(n, size, overlap), i) <==> exists s | s in starts :: InWindow(n, size, s, i)
    {
      KeptFromStarts(n, size, overlap, i);
    }
    if n > 0 {
      if size < 1 {
        assert !Kept(PositionWindows(n, size, overlap), n - 1);
      } else if overlap >= 0 {
        forall i: nat | i < n
          ensures Kept(PositionWindows(n, size, overlap), i)
        {
          WindowsCoverTheRest(n, size, step, 0, i);
        }
      } else if n <= size {
        assert starts[0] == 0 && 0 in starts;
        forall i: nat | i < n
          ensures Kept(PositionWindows(n, size, overlap), i)
        {
          assert InWindow(n, size, 0, i);
        }
      } else {
        assert !Kept(PositionWindows(n, size, overlap), size);
      }
    }
  }

  // ----- Rebuilding the words -----

  /** Later windows contribute what comes after the words they share with the one before. */
  function NewWords<T>(windows: seq<seq<T>>, shared: nat): seq<T> {
    if windows == [] then []
    else windows[0][Min(shared, |windows[0]|)..] + NewWords(windows[1..], shared)
  }

  function Rebuild<T>(windows: seq<seq<T>>, shared: nat): seq<T> {
    if windows == [] then [] else windows[0] + NewWords(windows[1..], shared)
  }

  /** From a position on, the windows start with the one there and each later one adds at least one word. */
  lemma {:induction false} TailRebuilds<T>(words: seq<T>, size: int, step: nat, start: nat)
    requires 1 <= step <= size && start + size - step < |words|
    ensures var ws := WindowsAt(words, size, Starts(|words|, size, step, start));
      && |ws| > 0
      && NewWords(ws, size - step) == words[start + size - step..]
      && forall i | 0 <= i < |ws| :: size - step < |ws[i]| <= size
    decreases |words| - start
  {
    hide WindowAt, Slice, Starts, WindowsAt, NewWords;
    var n := |words|;
    var first := words[start..Min(start + size, n)];
    WindowInside(words, size, start);
    WindowsUnfold(words, size, step, start);
    if start + size < n {
      TailRebuilds(words, size, step, start + step);
      OneMoreWindow(first, WindowsAt(words, size, Starts(n, size, step, start + step)), size - step);
      assert first[size - step..] + words[start + size..] == words[start + size - step..];
    } else {
      OneMoreWindow(first, [], size - step);
      assert [first] + [] == [first];
    }
  }

  lemma OneMoreWindow<T>(first: seq<T>, rest: seq<seq<T>>, shared: nat)
    requires |first| >= shared
    ensures NewWords([first] + rest, shared) == first[shared..] + NewWords(rest, shared)
    ensures NewWords<T>([], shared) == []
  {
    assert ([first] + rest)[1..] == rest;
  }

  /**
   * The first window followed by the new words of every later one is the text, word
   * for word, and no later window is redundant.
   */
  lemma WindowsRebuildWords<T>(words: seq<T>, size: int, overlap: int)
    requires size >= 1 && overlap >= 0
    ensures var ws := Windows(words, size, StepSize(size, overlap));
      var shared := if overlap < size then overlap else size - 1;
      && Rebuild(ws, shared) == words
      && (forall i | 1 <= i < |ws| :: shared < |ws[i]| <= size)
      && (|ws| > 0 ==> |ws[0]| <= size)
      && (words == [] <==> ws == [])
  {
    hide WindowAt, Slice, WindowsAt, Starts, NewWords, Rebuild;
    var n, step := |words|, StepSize(size, overlap);
    if n == 0 {
      NoWindows(words, size, step, 0);
      RebuildNothing<T>(size - step);
    } else {
      var first := words[..Min(size, n)];
      WindowInside(words, size, 0);
      WindowsUnfold(words, size, step, 0);
      var rest := if size < n then WindowsAt(words, size, Starts(n, size, step, step)) else [];
      assert Windows(words, size, step) == [first] + rest;
      RebuildFromFirst(first, rest, size - step);
      if size < n {
        TailRebuilds(words, size, step, step);
        assert first + words[size..] == words;
      } else {
        RebuildNothing<T>(size - step);
      }
    }
  }

  lemma RebuildNothing<T>(shared: nat)
    ensures Rebuild<T>([], shared) == [] && NewWords<T>([], shared) == []
  {
  }

  lemma RebuildFromFirst<T>(first: seq<T>, rest: seq<seq<T>>, shared: nat)
    ensures Rebuild([first] + rest, shared) == first + NewWords(rest, shared)
  {
    assert ([first] + rest)[1..] == rest;
  }

  lemma {:induction false} WindowsAreWords(words: seq<string>, size: int, starts: seq<nat>)
    requires forall w | w in words :: IsWord(w)
    ensures forall i, w | 0 <= i < |WindowsAt(words, size, starts)| && w in WindowsAt(words, size, starts)[i] :: IsWord(w)
  {
    if starts != [] {
      WindowsAreWords(words, size, starts[1..]);
    }
  }

  /** Splitting a chunk gives back the very window it was joined from. */
  lemma ChunksSplitToWindows(text: string, size: int, overlap: int)
    ensures SplitAll(Chunks(text, size, overlap)) == Windows(Split(text), size, StepSize(size, overlap))
  {
    var words, step := Split(text), StepSize(size, overlap);
    var ws := Windows(words, size, step);
    SplitYieldsWords(text);
    WindowsAreWords(words, size, Starts(|words|, size, step, 0));
    forall i | 0 <= i < |ws|
      ensures Split(Join(ws[i])) == ws[i]
    {
      SplitAfterJoin(ws[i]);
    }
  }

  /** The words of the text can be read off the stored chunk strings alone. */
  lemma ChunksRebuildText(text: string, size: int, overlap: int)
    requires size >= 1 && overlap >= 0
    ensures Rebuild(SplitAll(Chunks(text, size, overlap)), if overlap < size then overlap else size - 1) == Split(text)
  {
    ChunksSplitToWindows(text, size, overlap);
    WindowsRebuildWords(Split(text), size, overlap);
  }

  // ----- How many chunks, and what stays together -----

  lemma QuotientIs(x: int, d: nat, q: int, r: nat)
    requires d >= 1 && r < d && x == q * d + r
    ensures x / d == q
  {
    UniqueQuotient(x / d, q, d, x % d, r);
  }

  lemma UniqueQuotient(q: int, q': int, d: nat, r: nat, r': nat)
    requires r < d && r' < d && q * d + r == q' * d + r'
    ensures q == q'
  {
    if q > q' {
      AtLeastOnce(q - q', d);
    } else if q < q' {
      AtLeastOnce(q' - q, d);
    }
  }

  lemma AtLeastOnce(a: int, d: nat)
    requires a >= 1
    ensures a * d >= d
  {
    assert (a - 1) * d >= 0;
    assert a * d == (a - 1) * d + d;
  }

  lemma QuotientStep(x: int, step: nat)
    requires x >= 1 && step >= 1
    ensures (x + step - 1) / step == if x > step then 1 + (x - step + step - 1) / step else 1
  {
    var y := x - 1;
    var q := y / step;
    assert y == q * step + y % step;
    assert y + step == (q + 1) * step + y % step;
    QuotientIs(y + step, step, q + 1, y % step);
    if x <= step {
      QuotientIs(y, step, 0, y);
    }
  }

  lemma {:induction false} StartCount(n: nat, size: int, step: nat, start: nat)
    requires 1 <= step <= size && start < n
    ensures |Starts(n, size, step, start)| == if n - start <= size then 1 else 1 + (n - start - size + step - 1) / step
    decreases n - start
  {
    if start + size < n {
      StartCount(n, size, step, start + step);
      QuotientStep(n - start - size, step);
    }
  }

  lemma {:induction false} EveryWindowIsKept<T>(words: seq<T>, size: int, starts: seq<nat>)
    requires size >= 1 && forall s | s in starts :: s < |words|
    ensures |WindowsAt(words, size, starts)| == |starts|
  {
    if starts != [] {
      assert starts[0] in starts;
      assert forall s | s in starts[1..] :: s in starts;
      EveryWindowIsKept(words, size, starts[1..]);
    }
  }

  /** One chunk if the text fits a window, else one more than the steps needed to reach its end. */
  lemma ChunkCount(text: string, size: int, overlap: int)
    requires size >= 1 && overlap >= 0
    ensures var n, step := |Split(text)|, if overlap < size then size - overlap else 1;
      |Chunks(text, size, overlap)| ==
        if n == 0 then 0 else if n <= size then 1 else (n - size + step - 1) / step + 1
  {
    var words, step := Split(text), StepSize(size, overlap);
    StartsAreAhead(|words|, size, step, 0);
    EveryWindowIsKept(words, size, Starts(|words|, size, step, 0));
    if words != [] {
      StartCount(|words|, size, step, 0);
    }
  }

  /** The run of `length` positions from a lies inside one window. */
  predicate Together(windows: seq<seq<nat>>, a: nat, length: nat) {
    exists w | w in windows :: forall i: nat | a <= i < a + length :: i in w
  }

  /** Wherever a run of this length lies in an n-word text, some window holds all of it. */
  predicate KeepsRunsTogether(n: nat, windows: seq<seq<nat>>, length: nat) {
    forall a: nat | a + length <= n :: Together(windows, a, length)
  }

  lemma {:induction false} ShortRunsStayTogether(n: nat, size: int, step: nat, start: nat, a: nat, length: nat)
    requires 1 <= step <= size && length <= size - step + 1
    requires start <= a < n && a + length <= n
    ensures exists s | s in Starts(n, size, step, start) :: s <= a && a + length <= s + size
    decreases n - start
  {
    var starts := Starts(n, size, step, start);
    assert starts[0] == start && start in starts;
    if a + length > start + size {
      ShortRunsStayTogether(n, size, step, start + step, a, length);
      var s :| s in Starts(n, size, step, start + step) && s <= a && a + length <= s + size;
      assert s in starts;
    }
  }

  /** A window that reaches over the run holds all of it. */
  lemma WindowHoldsRun(n: nat, size: int, overlap: int, s: nat, a: nat, length: nat)
    requires s in Starts(n, size, StepSize(size, overlap), 0)
    requires size >= 1 && length >= 1 && s <= a && a + length <= n && a + length <= s + size
    ensures Together(PositionWindows(n, size, overlap), a, length)
  {
    hide WindowsAt, Starts, StepSize;
    var starts := Starts(n, size, StepSize(size, overlap), 0);
    WindowsComeFromStarts(n, size, starts);
    assert PositionWindows(n, size, overlap) == WindowsAt(Positions(n), size, starts);
    assert InWindow(n, size, s, a);
    var w :| w in WindowsAt(Positions(n), size, starts) && IsWindowAt(n, size, s, w);
    assert w in PositionWindows(n, size, overlap);
    assert forall i: nat | a <= i < a + length :: InWindow(n, size, s, i);
  }

  lemma StartOfWindow(n: nat, size: int, overlap: int, w: seq<nat>) returns (s: nat)
    requires w in PositionWindows(n, size, overlap)
    ensures s in Starts(n, size, StepSize(size, overlap), 0) && IsWindowAt(n, size, s, w)
  {
    hide WindowsAt, Starts, StepSize, IsWindowAt;
    var starts := Starts(n, size, StepSize(size, overlap), 0);
    assert PositionWindows(n, size, overlap) == WindowsAt(Positions(n), size, starts);
    WindowsComeFromStarts(n, size, starts);
    s :| s in starts && IsWindowAt(n, size, s, w);
  }

  /** A window holds no run that is longer than it, and none that crosses its start. */
  lemma RunInsideAWindow(n: nat, size: int, overlap: int, a: nat, length: nat)
    requires size >= 1 && length >= 1 && Together(PositionWindows(n, size, overlap), a, length)
    ensures exists s | s in Starts(n, size, StepSize(size, overlap), 0) :: s <= a && a + length <= s + size
  {
    hide PositionWindows, Starts, StepSize;
    var w :| w in PositionWindows(n, size, overlap) && forall i: nat | a <= i < a + length :: i in w;
    var s := StartOfWindow(n, size, overlap, w);
    assert InWindow(n, size, s, a) && InWindow(n, size, s, a + length - 1);
  }

  /**
   * For every size and overlap: all runs of a length stay together, each inside one
   * chunk, exactly if the text fits one window or the length is at most
   * min(size, overlap + 1), among lengths the text has a run of.
   */
  lemma LocalityIff(text: string, size: int, overlap: int, length: nat)
    requires 1 <= length <= |Split(text)|
    ensures var n := |Split(text)|; var ws := PositionWindows(n, size, overlap);
      && AllReadAs(Split(text), ws, SplitAll(Chunks(text, size, overlap)))
      && (KeepsRunsTogether(n, ws, length) <==> n <= size || (length <= size && length <= overlap + 1))
  {
    hide *;
    ChunksReadPositions(text, size, overlap);
    RunsTogetherIff(|Split(text)|, size, overlap, length);
  }

  lemma RunsTogetherIff(n: nat, size: int, overlap: int, length: nat)
    requires 1 <= length <= n
    ensures KeepsRunsTogether(n, PositionWindows(n, size, overlap), length)
       <==> n <= size || (length <= size && length <= overlap + 1)
  {
    hide PositionWindows, Together, KeepsEveryWord, Starts;
    PositionsKeptIff(n, size, overlap);
    if size < 1 || (overlap < 0 && n > size) {
      LostWordBreaksRun(n, PositionWindows(n, size, overlap), length);
    } else if n <= size {
      FirstWindowHoldsAll(n, size, overlap, length);
    } else if length <= Min(size, overlap + 1) {
      forall a: nat | a + length <= n
        ensures Together(PositionWindows(n, size, overlap), a, length)
      {
        ShortRunsStayTogether(n, size, StepSize(size, overlap), 0, a, length);
        var s :| s in Starts(n, size, StepSize(size, overlap), 0) && s <= a && a + length <= s + size;
        WindowHoldsRun(n, size, overlap, s, a, length);
      }
    } else {
      var a: nat := Max(0, size + 1 - length);
      StartsAreAhead(n, size, StepSize(size, overlap), 0);
      if Together(PositionWindows(n, size, overlap), a, length) {
        RunInsideAWindow(n, size, overlap, a, length);
      }
    }
  }

  lemma FirstWindowHoldsAll(n: nat, size: int, overlap: int, length: nat)
    requires 1 <= length <= n <= size
    ensures KeepsRunsTogether(n, PositionWindows(n, size, overlap), length)
  {
    hide PositionWindows, Together;
    assert Starts(n, size, StepSize(size, overlap), 0)[0] == 0;
    forall a: nat | a + length <= n
      ensures Together(PositionWindows(n, size, overlap), a, length)
    {
      WindowHoldsRun(n, size, overlap, 0, a, length);
    }
  }

  /** A run through a lost word lies in no window. */
  lemma LostWordBreaksRun(n: nat, windows: seq<seq<nat>>, length: nat)
    requires 1 <= length <= n && !KeepsEveryWord(n, windows)
    ensures !KeepsRunsTogether(n, windows, length)
  {
    var i: nat :| i < n && !Kept(windows, i);
    var a: nat := Min(i, n - length);
    assert a <= i < a + length;
    assert !Together(windows, a, length);
  }
}
