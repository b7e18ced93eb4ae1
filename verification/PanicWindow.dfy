/** The bounded window finds a keyword exactly when the unbounded stream contains one. */
module PanicWindow {
  import opened UartDevice

  /** A register access or an arriving byte. */
  datatype Access = Reading(offset: nat) | Writing(offset: nat, value: bv8) | Arriving(value: bv8)

  function After(s: State, a: Access): State {
    match a
    case Reading(o) => AfterRead(s, o)
    case Writing(o, v) => AfterWrite(s, o, v)
    case Arriving(b) => s.(input := s.input + [b])
  }

  function AfterAll(s: State, xs: seq<Access>): State
    decreases |xs|
  {
    if xs == [] then s else After(AfterAll(s, xs[..|xs| - 1]), xs[|xs| - 1])
  }

  /** The letter an access transmits, if any. */
  function Sent(a: Access): string {
    if a.Writing? && a.offset == THR && IsLetter(a.value) then [LetterOf(a.value)] else ""
  }

  /** Every letter transmitted so far. */
  function Stream(xs: seq<Access>): string
    decreases |xs|
  {
    if xs == [] then "" else Stream(xs[..|xs| - 1]) + Sent(xs[|xs| - 1])
  }

  // ----- Occurrences -----

  predicate EndsWith(text: string, word: string) {
    |word| <= |text| && text[|text| - |word|..] == word
  }

  /** A word occurs in a longer text if it did before or if it has just been completed. */
  lemma OccursExtend(word: string, text: string, letter: char)
    requires word != ""
    ensures Occurs(word, text + [letter]) <==> Occurs(word, text) || EndsWith(text + [letter], word)
  {
    var longer := text + [letter];
    if Occurs(word, text) {
      var i: nat :| i <= |text| && OccursAt(word, text, i);
      assert longer[i..i + |word|] == text[i..i + |word|];
      assert OccursAt(word, longer, i);
    }
    if EndsWith(longer, word) {
      EndingOccurs(word, longer);
    }
    if Occurs(word, longer) {
      var i: nat :| i <= |longer| && OccursAt(word, longer, i);
      if i == |longer| - |word| {
        assert longer[i..i + |word|] == longer[i..];
      } else {
        assert text[i..i + |word|] == longer[i..i + |word|];
        assert OccursAt(word, text, i);
      }
    }
  }

  /** What occurs in a suffix occurs in the whole. */
  lemma OccursInSuffix(word: string, text: string, k: nat)
    requires k <= |text| && Occurs(word, text[k..])
    ensures Occurs(word, text)
  {
    var i: nat :| i <= |text[k..]| && OccursAt(word, text[k..], i);
    assert text[k + i..k + i + |word|] == word;
    assert OccursAt(word, text, k + i);
  }

  /** A short ending of a text is an ending of its suffix. */
  lemma EndsInSuffix(word: string, text: string, k: nat)
    requires k <= |text| && |word| <= |text| - k
    ensures EndsWith(text[k..], word) <==> EndsWith(text, word)
  {
    assert text[k..][|text| - k - |word|..] == text[|text| - |word|..];
  }

  // ----- The window is a long enough suffix of the stream -----

  predicate IsWindowOf(window: string, stream: string) {
    && |window| <= |stream|
    && window == stream[|stream| - |window|..]
    && (|window| < 1024 ==> window == stream)
  }

  lemma WindowExtend(window: string, stream: string, letter: char)
    requires IsWindowOf(window, stream)
    ensures IsWindowOf(Window(window, letter), stream + [letter])
  {
    var longer := window + [letter];
    var all := stream + [letter];
    assert longer == all[|all| - |longer|..];
    if |longer| > LIMIT {
      assert longer[CUT..] == all[|all| - |longer| + CUT..];
    }
  }

  predicate Keyword(word: string) {
    word == "Kernel panic" || word == "kernel panic" || word == "not syncing"
  }

  /** Seen through the window, a keyword has just been completed exactly when it has in the stream. */
  lemma CompletedAlike(word: string, window: string, stream: string)
    requires Keyword(word) && IsWindowOf(window, stream)
    ensures EndsWith(window, word) <==> EndsWith(stream, word)
  {
    if |window| >= 1024 {
      EndsInSuffix(word, stream, |stream| - |window|);
    }
  }

  lemma WindowOccursInStream(word: string, window: string, stream: string)
    requires IsWindowOf(window, stream) && Occurs(word, window)
    ensures Occurs(word, stream)
  {
    hide Occurs;
    OccursInSuffix(word, stream, |stream| - |window|);
  }

  lemma DetectsAlike(word: string, window: string, stream: string, letter: char)
    requires Keyword(word) && IsWindowOf(window, stream)
    ensures Occurs(word, Window(window, letter)) ==> Occurs(word, stream + [letter])
    ensures Occurs(word, stream + [letter]) ==> Occurs(word, stream) || Occurs(word, Window(window, letter))
  {
    hide Occurs, Window, EndsWith, Keyword, IsWindowOf;
    WindowExtend(window, stream, letter);
    var next := Window(window, letter);
    var all := stream + [letter];
    if Occurs(word, next) {
      WindowOccursInStream(word, next, all);
    }
    KeywordNonEmpty(word);
    OccursExtend(word, stream, letter);
    CompletedAlike(word, next, all);
    if EndsWith(next, word) {
      EndingOccurs(word, next);
    }
  }

  lemma EndingOccurs(word: string, text: string)
    requires EndsWith(text, word)
    ensures Occurs(word, text)
  {
    var i := |text| - |word|;
    assert text[i..i + |word|] == text[i..];
    assert OccursAt(word, text, i);
  }

  // ----- Runs -----

  lemma OnlyTransmitting(s: State, a: Access)
    ensures Sent(a) == "" ==> After(s, a).output == s.output && After(s, a).panic == s.panic
    ensures Sent(a) != "" ==>
      && |Sent(a)| == 1 && After(s, a).output == Window(s.output, Sent(a)[0])
      && After(s, a).panic == (s.panic || MentionsPanic(Window(s.output, Sent(a)[0])))
  {
    hide MentionsPanic, Window;
  }

  lemma MentionsIff(text: string)
    ensures MentionsPanic(text) <==> exists w :: Keyword(w) && Occurs(w, text)
  {
    hide Occurs;
    assert Keyword("Kernel panic") && Keyword("kernel panic") && Keyword("not syncing");
  }

  /** After any accesses from reset, the flag is set exactly when a keyword occurs somewhere in everything
      transmitted, however long ago it passed through the window. */
  lemma {:induction false} PanicIffInStream(xs: seq<Access>)
    ensures var s := AfterAll(Reset(), xs);
      IsWindowOf(s.output, Stream(xs)) && (s.panic <==> MentionsPanic(Stream(xs)))
    decreases |xs|
  {
    hide Occurs, MentionsPanic, Window, Keyword;
    if xs == [] {
      NothingSent();
    } else {
      var init := xs[..|xs| - 1];
      var last := xs[|xs| - 1];
      PanicIffInStream(init);
      var s := AfterAll(Reset(), init);
      OnlyTransmitting(s, last);
      if Sent(last) == "" {
        assert Stream(xs) == Stream(init);
      } else {
        var letter := Sent(last)[0];
        WindowExtend(s.output, Stream(init), letter);
        assert Sent(last) == [letter];
        MentionsIff(Window(s.output, letter));
        MentionsIff(Stream(init) + [letter]);
        MentionsIff(Stream(init));
        KeywordsAlike(s.output, Stream(init), letter);
      }
    }
  }

  lemma KeywordsAlike(window: string, stream: string, letter: char)
    requires IsWindowOf(window, stream)
    ensures forall w :: Keyword(w) ==>
      && (Occurs(w, Window(window, letter)) ==> Occurs(w, stream + [letter]))
      && (Occurs(w, stream + [letter]) ==> Occurs(w, stream) || Occurs(w, Window(window, letter)))
      && (Occurs(w, stream) ==> Occurs(w, stream + [letter]))
  {
    hide Occurs, Window, Keyword;
    forall w | Keyword(w)
      ensures (Occurs(w, Window(window, letter)) ==> Occurs(w, stream + [letter]))
      ensures (Occurs(w, stream + [letter]) ==> Occurs(w, stream) || Occurs(w, Window(window, letter)))
      ensures (Occurs(w, stream) ==> Occurs(w, stream + [letter]))
    {
      DetectsAlike(w, window, stream, letter);
      KeywordNonEmpty(w);
      OccursExtend(w, stream, letter);
    }
  }

  lemma KeywordNonEmpty(w: string)
    requires Keyword(w)
    ensures w != ""
  {
  }

  lemma NothingSent()
    ensures !MentionsPanic("") && IsWindowOf("", "")
  {
  }
}
