/**
 * The typing effect of the hero description (class TypeWriter in js/main.js).
 *
 * One call of `type()` is one `Type` step: it grows or shrinks the displayed
 * text by one character as a prefix of the current word, flips between typing
 * and deleting at the full word and at the empty string, and yields the delay
 * after which the page calls `type()` again.  The timer re-arm itself and the
 * `innerHTML` write are not modelled; the delay is returned instead.
 */
module TypeWriter {
  import opened Wrappers

  /** Delay between two typed characters; deleting uses half of it. */
  const TypeSpeed: nat := 100
  /** Delay after a word has been fully deleted, before the next one starts. */
  const NextWordPause: nat := 500
  /** The constructor's default for `wait`. */
  const DefaultWait: nat := 3000

  /**
   * The object's state: the configured words and pause, the text shown so far,
   * the (ever growing) word counter and the current mode.
   */
  datatype TypeWriter = TypeWriter(
    words: seq<string>,
    wait: nat,
    txt: string,
    wordIndex: nat,
    isDeleting: bool)

  /** The state after one `type()` call and the delay before the next call. */
  datatype Tick = Tick(next: TypeWriter, delay: nat)

  /** With no words, `wordIndex % 0` is NaN, `words[NaN]` is undefined and `substring` on it throws. */
  datatype TypeError = NoWordToType

  /** JavaScript's clamping of a `substring` index into `[0, len]`. */
  function Clamp(n: int, len: nat): (r: nat)
    ensures r <= len
    ensures 0 <= n <= len ==> r == n
    ensures n < 0 ==> r == 0
    ensures n > len ==> r == len
  {
    if n < 0 then 0 else if n > len then len else n
  }

  /** `s.substring(0, end)`: the first `end` characters, `end` clamped into `[0, |s|]`. */
  function Prefix(s: string, end: int): (r: string)
    ensures |r| == Clamp(end, |s|)
  {
    s[..Clamp(end, |s|)]
  }

  /** `words[wordIndex % words.length]`. */
  function CurrentWord(tw: TypeWriter): string
    requires |tw.words| > 0
  {
    tw.words[tw.wordIndex % |tw.words|]
  }

  /**
   * One call of `type()`.  Fails exactly when there is no word to type.
   * Otherwise, for a state whose text is no longer than the current word,
   * the four cases of the method are determined by the state before the call:
   * typing on, completing the word, deleting on, and finishing the deletion.
   */
  function Type(tw: TypeWriter): (r: Result<Tick, TypeError>)
    ensures r.Success? <==> |tw.words| > 0
    ensures r.Success? ==>
      && r.value.next.words == tw.words
      && r.value.next.wait == tw.wait
      && r.value.next.txt <= CurrentWord(r.value.next)
      && tw.wordIndex <= r.value.next.wordIndex <= tw.wordIndex + 1
    // typing: one more character of the word
    ensures |tw.words| > 0 && !tw.isDeleting && |tw.txt| + 1 < |CurrentWord(tw)| ==>
      r == Success(Tick(tw.(txt := CurrentWord(tw)[..|tw.txt| + 1]), TypeSpeed))
    // the word is complete: pause for `wait`, then delete
    ensures |tw.words| > 0 && !tw.isDeleting && |tw.txt| + 1 >= |CurrentWord(tw)| ==>
      r == Success(Tick(tw.(txt := CurrentWord(tw), isDeleting := true), tw.wait))
    // deleting: one character less, at double speed
    ensures |tw.words| > 0 && tw.isDeleting && 1 < |tw.txt| <= |CurrentWord(tw)| ==>
      r == Success(Tick(tw.(txt := CurrentWord(tw)[..|tw.txt| - 1]), TypeSpeed / 2))
    // the text is gone: move to the next word after a pause
    ensures |tw.words| > 0 && tw.isDeleting && |tw.txt| <= 1 ==>
      r == Success(Tick(tw.(txt := "", isDeleting := false, wordIndex := tw.wordIndex + 1), NextWordPause))
  {
    if |tw.words| == 0 then Failure(NoWordToType) else Success(Step(tw))
  }

  /** The body of `type()` once `words[wordIndex % words.length]` exists. */
  function Step(tw: TypeWriter): Tick
    requires |tw.words| > 0
  {
    var fullTxt := CurrentWord(tw);
    var txt := if tw.isDeleting then Prefix(fullTxt, |tw.txt| - 1)
               else Prefix(fullTxt, |tw.txt| + 1);
    var typeSpeed := if tw.isDeleting then TypeSpeed / 2 else TypeSpeed;
    if !tw.isDeleting && txt == fullTxt then
      Tick(tw.(txt := txt, isDeleting := true), tw.wait)
    else if tw.isDeleting && txt == "" then
      Tick(tw.(txt := txt, isDeleting := false, wordIndex := tw.wordIndex + 1), NextWordPause)
    else
      Tick(tw.(txt := txt), typeSpeed)
  }

  /**
   * `new TypeWriter(element, words, wait)`: the initial state followed by the
   * constructor's own first `type()` call, which throws when `words` is empty.
   */
  function Create(words: seq<string>, wait: nat): (r: Result<Tick, TypeError>)
    ensures r.Success? <==> |words| > 0
    ensures r.Success? ==>
      r.value.next.words == words && r.value.next.wait == wait && r.value.next.wordIndex == 0
    // a first word of two or more characters: its first character, still typing
    ensures r.Success? && |words[0]| > 1 ==>
      r.value.next.txt == words[0][..1] && !r.value.next.isDeleting && r.value.delay == TypeSpeed
    // a first word of at most one character is already complete: pause `wait`, then delete
    ensures r.Success? && |words[0]| <= 1 ==>
      r.value.next.txt == words[0] && r.value.next.isDeleting && r.value.delay == wait
  {
    Type(TypeWriter(words, wait, "", 0, false))
  }

  /** The state after one successful `type()` call. */
  function Next(tw: TypeWriter): TypeWriter
    requires |tw.words| > 0
  {
    Step(tw).next
  }

  /**
   * The state after `n` timer-driven `type()` calls (a state without words
   * never gets a timer, so it stays as it is).
   */
  function Run(tw: TypeWriter, n: nat): TypeWriter
    decreases n
  {
    if n == 0 || |tw.words| == 0 then tw else Run(Next(tw), n - 1)
  }

  /** Running `a` steps and then `b` steps is running `a + b` steps. */
  lemma {:induction false} RunAdd(tw: TypeWriter, a: nat, b: nat)
    ensures Run(Run(tw, a), b) == Run(tw, a + b)
    decreases a
  {
    if a > 0 && |tw.words| > 0 {
      RunAdd(Next(tw), a - 1, b);
    }
  }

  /** Two runs chained: `a` calls reach `mid`, and `b` more calls from `mid` reach `last`. */
  lemma {:induction false} RunChain(tw: TypeWriter, a: nat, mid: TypeWriter, b: nat, last: TypeWriter)
    requires Run(tw, a) == mid && Run(mid, b) == last
    ensures Run(tw, a + b) == last
  {
    RunAdd(tw, a, b);
  }

  /**
   * Over any number of calls the words and the pause never change, the word
   * counter never decreases and grows by at most one per call, and after at
   * least one call the text is a prefix of the current word.
   */
  lemma {:induction false} RunInvariant(tw: TypeWriter, n: nat)
    requires |tw.words| > 0
    ensures Run(tw, n).words == tw.words && Run(tw, n).wait == tw.wait
    ensures tw.wordIndex <= Run(tw, n).wordIndex <= tw.wordIndex + n
    ensures n > 0 ==> Run(tw, n).txt <= CurrentWord(Run(tw, n))
    decreases n
  {
    if n > 0 {
      RunInvariant(Next(tw), n - 1);
      if n == 1 {
        assert Run(tw, n) == Next(tw);
      }
    }
  }

  /** Typing from `k` characters reaches the full word, in deleting mode, after `|w| - k` calls. */
  lemma {:induction false} TypingPhase(tw: TypeWriter, k: nat)
    requires |tw.words| > 0 && !tw.isDeleting
    requires k < |CurrentWord(tw)| && tw.txt == CurrentWord(tw)[..k]
    ensures Run(tw, |CurrentWord(tw)| - k) == tw.(txt := CurrentWord(tw), isDeleting := true)
    decreases |CurrentWord(tw)| - k
  {
    var w := CurrentWord(tw);
    if k + 1 < |w| {
      TypingPhase(Next(tw), k + 1);
    } else {
      assert Run(tw, 1) == Next(tw);
    }
  }

  /** Deleting from `k >= 1` characters empties the text and moves to the next word after `k` calls. */
  lemma {:induction false} DeletingPhase(tw: TypeWriter, k: nat)
    requires |tw.words| > 0 && tw.isDeleting
    requires 1 <= k <= |CurrentWord(tw)| && tw.txt == CurrentWord(tw)[..k]
    ensures Run(tw, k) == tw.(txt := "", isDeleting := false, wordIndex := tw.wordIndex + 1)
    decreases k
  {
    var w := CurrentWord(tw);
    if k > 1 {
      assert w[..k][..k - 1] == w[..k - 1];
      DeletingPhase(Next(tw), k - 1);
    } else {
      assert Run(tw, 1) == Next(tw);
    }
  }

  /** An empty word "completes" on the first call and is "deleted" on the second. */
  lemma {:induction false} CycleEmptyWord(tw: TypeWriter)
    requires |tw.words| > 0 && tw.txt == "" && !tw.isDeleting && CurrentWord(tw) == ""
    ensures Run(tw, 2) == tw.(wordIndex := tw.wordIndex + 1)
  {
  }

  /** From an empty text, a non-empty word is typed out in `|w|` calls. */
  lemma {:induction false} TypedOut(tw: TypeWriter)
    requires |tw.words| > 0 && tw.txt == "" && !tw.isDeleting && CurrentWord(tw) != ""
    ensures Run(tw, |CurrentWord(tw)|) == tw.(txt := CurrentWord(tw), isDeleting := true)
  {
    assert tw.txt == CurrentWord(tw)[..0];
    TypingPhase(tw, 0);
  }

  /** From the full word, a non-empty word is deleted in `|w|` calls. */
  lemma {:induction false} DeletedOut(tw: TypeWriter)
    requires |tw.words| > 0 && tw.isDeleting && tw.txt == CurrentWord(tw) != ""
    ensures Run(tw, |CurrentWord(tw)|) == tw.(txt := "", isDeleting := false, wordIndex := tw.wordIndex + 1)
  {
    assert tw.txt == CurrentWord(tw)[..|tw.txt|];
    DeletingPhase(tw, |tw.txt|);
  }

  /** A non-empty word is typed out in `|w|` calls and deleted in `|w|` more. */
  lemma {:induction false} CycleNonEmptyWord(tw: TypeWriter)
    requires |tw.words| > 0 && tw.txt == "" && !tw.isDeleting && CurrentWord(tw) != ""
    ensures Run(tw, |CurrentWord(tw)| + |CurrentWord(tw)|) == tw.(wordIndex := tw.wordIndex + 1)
  {
    var n := |CurrentWord(tw)|;
    var full := tw.(txt := CurrentWord(tw), isDeleting := true);
    var target := tw.(wordIndex := tw.wordIndex + 1);
    TypedOut(tw);
    DeletedOut(full);
    RunChain(tw, n, full, n, target);
  }

  /**
   * A full cycle: starting from an empty text in typing mode, the effect types
   * the word out, deletes it again and arrives at the same situation for the
   * next word, after exactly `2 * max(1, |w|)` calls (an empty word costs one
   * call to "complete" and one to "delete").
   */
  lemma {:induction false} CycleToNextWord(tw: TypeWriter)
    requires |tw.words| > 0 && tw.txt == "" && !tw.isDeleting
    ensures Run(tw, 2 * Max1(|CurrentWord(tw)|)) == tw.(wordIndex := tw.wordIndex + 1)
  {
    if CurrentWord(tw) == "" {
      CycleEmptyWord(tw);
    } else {
      var n := |CurrentWord(tw)|;
      assert 2 * Max1(n) == n + n;
      CycleNonEmptyWord(tw);
    }
  }

  /** `max(1, n)`: the number of calls each half of a cycle takes. */
  function Max1(n: nat): nat {
    if n == 0 then 1 else n
  }
}
