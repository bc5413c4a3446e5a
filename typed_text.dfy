/**
 * The typed-text animation: each timer tick renders the visible part of the
 * current phrase, then types a character, deletes one, pauses before
 * deleting, or pauses and moves on to the next phrase. The timer itself is
 * not modelled; a tick returns the delay it would schedule the next tick at.
 */
module TypedText {

  /** The phrases the portfolio page cycles through. */
  const Phrases: seq<string> := ["Developer", "IS Student", "UI/UX Enthusiast"]

  /**
   * The text written before the phrase: a space, the three characters an
   * em dash shows up as when its UTF-8 bytes are read as Windows-1252, and
   * another space.
   */
  const Prefix: string := " \U{00E2}\U{20AC}\U{201D} "

  const TypeDelay: nat := 90
  const DeleteDelay: nat := 50
  const FullPause: nat := 1200
  const EmptyPause: nat := 250

  datatype State = State(phraseIndex: nat, charIndex: nat, isDeleting: bool)

  /** The cursor points into the phrase list and within the current phrase. */
  predicate Valid(phrases: seq<string>, s: State) {
    s.phraseIndex < |phrases| && s.charIndex <= |phrases[s.phraseIndex]|
  }

  /** What a tick writes into the element, computed from the state before the tick. */
  function Render(phrases: seq<string>, s: State): (r: string)
    requires Valid(phrases, s)
    ensures |r| == |Prefix| + s.charIndex
    ensures r[..|Prefix|] == Prefix
    ensures r[|Prefix|..] <= phrases[s.phraseIndex]
  {
    Prefix + phrases[s.phraseIndex][..s.charIndex]
  }

  /** The state after one tick. */
  function Next(phrases: seq<string>, s: State): (t: State)
    requires Valid(phrases, s)
    ensures Valid(phrases, t)
    ensures t.phraseIndex == (if s.isDeleting && s.charIndex == 0 then (s.phraseIndex + 1) % |phrases| else s.phraseIndex)
    ensures t.charIndex == s.charIndex + 1 || t.charIndex == s.charIndex || t.charIndex + 1 == s.charIndex
    ensures t.phraseIndex != s.phraseIndex ==> s.isDeleting && s.charIndex == 0 && t.charIndex == 0 && !t.isDeleting
  {
    var len := |phrases[s.phraseIndex]|;
    if !s.isDeleting && s.charIndex < len then s.(charIndex := s.charIndex + 1)
    else if s.isDeleting && s.charIndex > 0 then s.(charIndex := s.charIndex - 1)
    else if !s.isDeleting then s.(isDeleting := true)
    else State((s.phraseIndex + 1) % |phrases|, s.charIndex, false)
  }

  /** The delay a tick schedules the next tick at. */
  function Delay(phrases: seq<string>, s: State): (d: nat)
    requires Valid(phrases, s)
    ensures d == TypeDelay <==> !s.isDeleting && s.charIndex < |phrases[s.phraseIndex]|
    ensures d == DeleteDelay <==> s.isDeleting && s.charIndex > 0
    ensures d == FullPause <==> !s.isDeleting && s.charIndex == |phrases[s.phraseIndex]|
    ensures d == EmptyPause <==> s.isDeleting && s.charIndex == 0
  {
    var len := |phrases[s.phraseIndex]|;
    if !s.isDeleting && s.charIndex < len then TypeDelay
    else if s.isDeleting && s.charIndex > 0 then DeleteDelay
    else if !s.isDeleting then FullPause
    else EmptyPause
  }

  /** What one tick shows and how long it waits. */
  datatype Frame = Frame(text: string, delay: nat)

  /** The state after `n` ticks. */
  function Iterate(phrases: seq<string>, s: State, n: nat): (t: State)
    requires Valid(phrases, s)
    ensures Valid(phrases, t)
    decreases n
  {
    if n == 0 then s else Iterate(phrases, Next(phrases, s), n - 1)
  }

  /** The frames of `n` successive ticks. */
  function Trace(phrases: seq<string>, s: State, n: nat): (tr: seq<Frame>)
    requires Valid(phrases, s)
    ensures |tr| == n
    decreases n
  {
    if n == 0 then [] else [Frame(Render(phrases, s), Delay(phrases, s))] + Trace(phrases, Next(phrases, s), n - 1)
  }

  /** Running `a` ticks and then `b` more is running `a + b` ticks. */
  lemma {:induction false} TraceSplit(phrases: seq<string>, s: State, a: nat, b: nat)
    requires Valid(phrases, s)
    ensures Iterate(phrases, s, a + b) == Iterate(phrases, Iterate(phrases, s, a), b)
    ensures Trace(phrases, s, a + b) == Trace(phrases, s, a) + Trace(phrases, Iterate(phrases, s, a), b)
    decreases a
  {
    if a > 0 {
      TraceSplit(phrases, Next(phrases, s), a - 1, b);
      assert a + b - 1 == (a - 1) + b;
    }
  }

  /** Typing the last `n` characters of the phrase takes one 90 ms tick per character. */
  lemma {:induction false} TypingPhase(phrases: seq<string>, p: nat, c: nat, n: nat)
    requires p < |phrases| && c + n == |phrases[p]|
    ensures Iterate(phrases, State(p, c, false), n) == State(p, |phrases[p]|, false)
    ensures forall k :: 0 <= k < n ==>
      Trace(phrases, State(p, c, false), n)[k] == Frame(Prefix + phrases[p][..c + k], TypeDelay)
    decreases n
  {
    if n > 0 {
      TypingPhase(phrases, p, c + 1, n - 1);
      var tr := Trace(phrases, State(p, c, false), n);
      var rest := Trace(phrases, State(p, c + 1, false), n - 1);
      assert tr == [Frame(Prefix + phrases[p][..c], TypeDelay)] + rest;
      forall k | 0 <= k < n ensures tr[k] == Frame(Prefix + phrases[p][..c + k], TypeDelay) {
        if k > 0 {
          assert tr[k] == rest[k - 1];
          assert rest[k - 1] == Frame(Prefix + phrases[p][..c + 1 + (k - 1)], TypeDelay);
        }
      }
    }
  }

  /** Deleting from `c` characters down to none takes one 50 ms tick per character. */
  lemma {:induction false} DeletingPhase(phrases: seq<string>, p: nat, c: nat)
    requires p < |phrases| && c <= |phrases[p]|
    ensures Iterate(phrases, State(p, c, true), c) == State(p, 0, true)
    ensures forall k :: 0 <= k < c ==>
      Trace(phrases, State(p, c, true), c)[k] == Frame(Prefix + phrases[p][..c - k], DeleteDelay)
  {
    if c > 0 {
      DeletingPhase(phrases, p, c - 1);
      var tr := Trace(phrases, State(p, c, true), c);
      var rest := Trace(phrases, State(p, c - 1, true), c - 1);
      assert tr == [Frame(Prefix + phrases[p][..c], DeleteDelay)] + rest;
      forall k | 0 <= k < c ensures tr[k] == Frame(Prefix + phrases[p][..c - k], DeleteDelay) {
        if k > 0 {
          assert tr[k] == rest[k - 1];
          assert rest[k - 1] == Frame(Prefix + phrases[p][..c - 1 - (k - 1)], DeleteDelay);
        }
      }
    }
  }

  /**
   * From a full phrase: a 1200 ms pause showing it, its L characters deleted
   * at 50 ms each, and a 250 ms pause on the empty text, after which the next
   * phrase starts from nothing in typing mode.
   */
  lemma {:induction false} FullToNext(phrases: seq<string>, p: nat)
    requires p < |phrases|
    ensures var w := phrases[p]; var L := |w|;
      var tr := Trace(phrases, State(p, L, false), L + 2);
      Iterate(phrases, State(p, L, false), L + 2) == State((p + 1) % |phrases|, 0, false) &&
      tr[0] == Frame(Prefix + w, FullPause) &&
      (forall k :: 0 < k <= L ==> tr[k] == Frame(Prefix + w[..L + 1 - k], DeleteDelay)) &&
      tr[L + 1] == Frame(Prefix, EmptyPause)
  {
    var w := phrases[p];
    var L := |w|;
    var full, del, empty := State(p, L, false), State(p, L, true), State(p, 0, true);
    DeletingPhase(phrases, p, L);
    TraceSplit(phrases, del, L, 1);
    var deleting := Trace(phrases, del, L);
    assert Trace(phrases, empty, 1) == [Frame(Prefix, EmptyPause)] by {
      assert Prefix + w[..0] == Prefix;
    }
    var tr := Trace(phrases, full, L + 2);
    assert tr == [Frame(Prefix + w, FullPause)] + Trace(phrases, del, L + 1) by {
      assert w[..L] == w;
    }
    assert tr == [Frame(Prefix + w, FullPause)] + deleting + [Frame(Prefix, EmptyPause)];
    forall k | 0 < k <= L ensures tr[k] == Frame(Prefix + w[..L + 1 - k], DeleteDelay) {
      assert tr[k] == deleting[k - 1];
    }
  }

  /**
   * One full cycle over a phrase of length L: L typing ticks at 90 ms showing
   * 0 .. L-1 characters, a 1200 ms pause on the full phrase, L deleting
   * ticks at 50 ms showing L .. 1 characters, a 250 ms pause on the empty
   * text, and then the next phrase starts from nothing, in typing mode:
   * 2L + 2 ticks in all.
   */
  lemma {:induction false} Cycle(phrases: seq<string>, p: nat)
    requires p < |phrases|
    ensures var w := phrases[p]; var L := |w|;
      var tr := Trace(phrases, State(p, 0, false), 2 * L + 2);
      Iterate(phrases, State(p, 0, false), 2 * L + 2) == State((p + 1) % |phrases|, 0, false) &&
      (forall k :: 0 <= k < L ==> tr[k] == Frame(Prefix + w[..k], TypeDelay)) &&
      tr[L] == Frame(Prefix + w, FullPause) &&
      (forall k :: L < k <= 2 * L ==> tr[k] == Frame(Prefix + w[..2 * L + 1 - k], DeleteDelay)) &&
      tr[2 * L + 1] == Frame(Prefix, EmptyPause)
  {
    var w := phrases[p];
    var L := |w|;
    var s0 := State(p, 0, false);
    TypingPhase(phrases, p, 0, L);
    FullToNext(phrases, p);
    TraceSplit(phrases, s0, L, L + 2);
    var typing := Trace(phrases, s0, L);
    var after := Trace(phrases, State(p, L, false), L + 2);
    var tr := Trace(phrases, s0, 2 * L + 2);
    assert tr == typing + after;
    forall k | 0 <= k < L ensures tr[k] == Frame(Prefix + w[..k], TypeDelay) {
      assert tr[k] == typing[k];
      assert typing[k] == Frame(Prefix + w[..0 + k], TypeDelay);
    }
    assert tr[L] == after[0];
    forall k | L < k <= 2 * L ensures tr[k] == Frame(Prefix + w[..2 * L + 1 - k], DeleteDelay) {
      assert tr[k] == after[k - L];
      assert after[k - L] == Frame(Prefix + w[..L + 1 - (k - L)], DeleteDelay);
    }
    assert tr[2 * L + 1] == after[L + 1];
  }

  /** Where a full cycle leaves the state, without its frames. */
  lemma CycleState(phrases: seq<string>, p: nat)
    requires p < |phrases|
    ensures Iterate(phrases, State(p, 0, false), 2 * |phrases[p]| + 2) == State((p + 1) % |phrases|, 0, false)
  {
    Cycle(phrases, p);
  }

  /**
   * On the page's own list, "Developer" (9 characters) takes 20 ticks, after
   * which "IS Student" starts from nothing.
   */
  lemma FirstPhraseCycle()
    ensures Iterate(Phrases, State(0, 0, false), 20) == State(1, 0, false)
  {
    assert |Phrases[0]| == 9;
    CycleState(Phrases, 0);
  }

  /** The animation as the page runs it: the phrase list and the three cursors. */
  class Typer {
    const phrases: seq<string>
    var phraseIndex: nat
    var charIndex: nat
    var isDeleting: bool

    function Current(): State
      reads this
    {
      State(phraseIndex, charIndex, isDeleting)
    }

    predicate Ready()
      reads this
    {
      Valid(phrases, Current())
    }

    /** The script's starting point: first phrase, nothing typed, typing. */
    constructor (phrases: seq<string>)
      requires |phrases| > 0
      ensures this.phrases == phrases && Current() == State(0, 0, false) && Ready()
    {
      this.phrases := phrases;
      phraseIndex, charIndex, isDeleting := 0, 0, false;
    }

    /** One run of the timer callback. */
    method Tick() returns (text: string, delay: nat)
      requires Ready()
      modifies this
      ensures Ready()
      ensures text == Render(phrases, old(Current()))
      ensures delay == Delay(phrases, old(Current()))
      ensures Current() == Next(phrases, old(Current()))
    {
      var current := phrases[phraseIndex];
      var visible := current[..charIndex];
      text := Prefix + visible;

      if !isDeleting && charIndex < |current| {
        charIndex := charIndex + 1;
        delay := TypeDelay;
      } else if isDeleting && charIndex > 0 {
        charIndex := charIndex - 1;
        delay := DeleteDelay;
      } else {
        if !isDeleting {
          isDeleting := true;
          delay := FullPause;
        } else {
          isDeleting := false;
          phraseIndex := (phraseIndex + 1) % |phrases|;
          delay := EmptyPause;
        }
      }
    }
  }
}
