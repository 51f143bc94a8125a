/** The text-to-speech manager: a single engine created on demand, a
    readiness flag set by the engine's initialisation callback, and a queue
    of requests made before the engine was ready, replayed by that callback.
    The engine itself is outside the model; what the manager asks of it is
    recorded as effects, and its answers are parameters. */
module Tts {
  import opened Text

  /** `TextToSpeech.QUEUE_FLUSH`, the default queue mode of `speak`. */
  const QueueFlush: int := 0
  /** `TextToSpeech.LANG_MISSING_DATA`. */
  const LangMissingData: int := -1
  /** The locale the callback selects on success (`Locale.US`). */
  const UsEnglish: string := "en_US"

  datatype Speech = Speech(text: string, queueMode: int)

  /** What the manager did towards the engine or its callers. Listeners are
      named by number. */
  datatype Effect =
    | Create(listener: nat)           // a new engine whose callback will notify `listener`
    | Notify(listener: nat, success: bool)
    | SetLocale(locale: string)
    | Say(speech: Speech)
    | Silence                         // `tts.stop()`
    | Release                         // `tts.shutdown()`

  /** `hasEngine` is `tts != null`; `pending` holds the requests waiting
      for the initialisation callback, in the order they were made. */
  datatype Manager = Manager(hasEngine: bool, initialized: bool, pending: seq<Speech>)

  const Start: Manager := Manager(false, false, [])

  datatype Outcome = Outcome(m: Manager, effects: seq<Effect>)

  /** Requests are handed to the engine directly only when it exists and
      has reported success. */
  predicate Ready(m: Manager) {
    m.initialized && m.hasEngine
  }

  /** The speech requests among the effects, in order. */
  function Said(es: seq<Effect>): (r: seq<Speech>)
    ensures |r| <= |es|
  {
    if es == [] then []
    else (if es[0].Say? then [es[0].speech] else []) + Said(es[1..])
  }

  lemma {:induction false} SaidConcat(a: seq<Effect>, b: seq<Effect>)
    ensures Said(a + b) == Said(a) + Said(b)
    decreases |a|
  {
    if a != [] {
      var h := if a[0].Say? then [a[0].speech] else [];
      assert (a + b)[0] == a[0];
      assert (a + b)[1..] == a[1..] + b;
      assert Said(a + b) == h + Said(a[1..] + b);
      SaidConcat(a[1..], b);
      assert h + (Said(a[1..]) + Said(b)) == (h + Said(a[1..])) + Said(b);
    } else {
      assert a + b == b;
    }
  }

  function SayAll(ss: seq<Speech>): (r: seq<Effect>)
    ensures |r| == |ss|
    ensures forall i :: 0 <= i < |ss| ==> r[i] == Say(ss[i])
  {
    seq(|ss|, i requires 0 <= i < |ss| => Say(ss[i]))
  }

  lemma {:induction false} SaidSayAll(ss: seq<Speech>)
    ensures Said(SayAll(ss)) == ss
    decreases |ss|
  {
    if ss != [] {
      assert SayAll(ss)[1..] == SayAll(ss[1..]);
      SaidSayAll(ss[1..]);
    }
  }

  /** `initialize`: with an engine already present the listener hears the
      current flag at once; otherwise an engine is created and the listener
      waits for its callback. */
  function Initialize(m: Manager, listener: nat): (r: Outcome)
    ensures r.m.hasEngine && r.m.initialized == m.initialized && r.m.pending == m.pending
    ensures m.hasEngine ==> r.effects == [Notify(listener, m.initialized)]
    ensures !m.hasEngine ==> r.effects == [Create(listener)]
  {
    if m.hasEngine then Outcome(m, [Notify(listener, m.initialized)])
    else Outcome(m.(hasEngine := true), [Create(listener)])
  }

  /** The engine's initialisation callback for the listener given to the
      `initialize` that created it. The flag takes the reported status;
      on success the US locale is selected and every queued request is
      spoken in order, on failure they are dropped; the queue is emptied
      either way. A callback arriving after `shutdown` still sets the flag,
      but with no engine nothing is selected or spoken. */
  function OnInit(m: Manager, listener: nat, success: bool): (r: Outcome)
    ensures r.m.initialized == success && r.m.hasEngine == m.hasEngine && r.m.pending == []
    ensures Said(r.effects) == (if success && m.hasEngine then m.pending else [])
    ensures Notify(listener, success) in r.effects
    ensures SetLocale(UsEnglish) in r.effects <==> success && m.hasEngine
  {
    var live := success && m.hasEngine;
    var select := if live then [SetLocale(UsEnglish)] else [];
    var replay := if live then SayAll(m.pending) else [];
    SaidConcat(select, [Notify(listener, success)]);
    SaidConcat(select + [Notify(listener, success)], replay);
    SaidSayAll(m.pending);
    assert Said([Notify(listener, success)]) == [];
    assert live ==> Said(select) == [];
    Outcome(Manager(m.hasEngine, success, []), select + [Notify(listener, success)] + replay)
  }

  /** `speak`: straight to a ready engine, otherwise onto the queue. */
  function Speak(m: Manager, s: Speech): (r: Outcome)
    ensures Ready(m) ==> r.m == m && Said(r.effects) == [s]
    ensures !Ready(m) ==> r.m == m.(pending := m.pending + [s]) && r.effects == []
  {
    if Ready(m) then Outcome(m, [Say(s)]) else Outcome(m.(pending := m.pending + [s]), [])
  }

  /** `stop`: silences the engine if there is one. */
  function Stop(m: Manager): (r: Outcome)
    ensures r.m == m
    ensures r.effects == [Silence] <==> m.hasEngine
    ensures !m.hasEngine ==> r.effects == []
  {
    Outcome(m, if m.hasEngine then [Silence] else [])
  }

  /** `setLanguage`: the engine's answer `engineAnswer` when it is ready,
      `LANG_MISSING_DATA` (and no request to the engine) otherwise. */
  function SetLanguage(m: Manager, locale: string, engineAnswer: int): (r: (int, seq<Effect>))
    ensures Ready(m) ==> r == (engineAnswer, [SetLocale(locale)])
    ensures !Ready(m) ==> r.0 == LangMissingData && r.1 == []
  {
    if Ready(m) then (engineAnswer, [SetLocale(locale)]) else (LangMissingData, [])
  }

  /** `shutdown`: stops and releases the engine, forgets it and clears the
      flag; the queue is left as it is. */
  function Shutdown(m: Manager): (r: Outcome)
    ensures !r.m.hasEngine && !r.m.initialized && r.m.pending == m.pending
    ensures m.hasEngine ==> r.effects == [Silence, Release]
    ensures !m.hasEngine ==> r.effects == []
  {
    Outcome(Manager(false, false, m.pending), if m.hasEngine then [Silence, Release] else [])
  }

  /** `getStatus`. */
  function Status(m: Manager): (r: string)
    ensures r == "Initialized" <==> m.initialized
  {
    if m.initialized then "Initialized" else "Not Initialized"
  }

  // ---------------------------------------------------------------------
  // speakOnlyEnglish

  /** The part of an entry before its first opening parenthesis, where the
      vocabulary keeps the non-English gloss; the whole entry if it has
      none. */
  function EnglishPart(text: string): (r: string)
    ensures '(' !in r
    ensures IsPrefix(r, text)
    ensures r == text || text[|r|] == '('
  {
    var i := IndexOf(text, '(');
    if i != -1 then text[..i] else text
  }

  /** Cutting twice cuts no more. */
  lemma EnglishPartIdempotent(text: string)
    ensures EnglishPart(EnglishPart(text)) == EnglishPart(text)
  {
  }

  /** The cut is the longest prefix without a parenthesis: any prefix free
      of '(' is a prefix of it. */
  lemma EnglishPartLongest(text: string, p: string)
    requires IsPrefix(p, text) && '(' !in p
    ensures IsPrefix(p, EnglishPart(text))
  {
    var r := EnglishPart(text);
    assert forall k :: 0 <= k < |p| ==> p[k] == text[k];
    assert |p| <= |r| by {
      if r != text {
        assert text[|r|] == '(';
      }
    }
    assert r[..|p|] == text[..|p|];
  }

  /** `speakOnlyEnglish`: speaks the English part with the default queue
      mode. */
  function SpeakOnlyEnglish(m: Manager, text: string): (r: Outcome)
    ensures Ready(m) ==> Said(r.effects) == [Speech(EnglishPart(text), QueueFlush)]
    ensures !Ready(m) ==> r.m.pending == m.pending + [Speech(EnglishPart(text), QueueFlush)]
    ensures |r.m.pending| >= |m.pending|
    ensures forall s :: s in Said(r.effects) + r.m.pending[|m.pending|..] ==> '(' !in s.text
  {
    Speak(m, Speech(EnglishPart(text), QueueFlush))
  }

  // ---------------------------------------------------------------------
  // Traces

  /** A run of `speak` calls. */
  function SpeakAll(m: Manager, ss: seq<Speech>): (r: Outcome)
    decreases |ss|
  {
    if ss == [] then Outcome(m, [])
    else
      var a := Speak(m, ss[0]);
      var b := SpeakAll(a.m, ss[1..]);
      Outcome(b.m, a.effects + b.effects)
  }

  /** Before the engine is ready every request is queued, in order, and
      nothing reaches the engine. */
  lemma {:induction false} SpeakAllQueues(m: Manager, ss: seq<Speech>)
    requires !Ready(m)
    ensures SpeakAll(m, ss) == Outcome(m.(pending := m.pending + ss), [])
    decreases |ss|
  {
    if ss != [] {
      var a := Speak(m, ss[0]);
      SpeakAllQueues(a.m, ss[1..]);
      assert m.pending + [ss[0]] + ss[1..] == m.pending + ss;
    }
  }

  /** Once the engine is ready every request is spoken at once, in order. */
  lemma {:induction false} SpeakAllSpeaks(m: Manager, ss: seq<Speech>)
    requires Ready(m)
    ensures SpeakAll(m, ss).m == m && Said(SpeakAll(m, ss).effects) == ss
    decreases |ss|
  {
    if ss != [] {
      var a := Speak(m, ss[0]);
      SpeakAllSpeaks(a.m, ss[1..]);
      SaidConcat(a.effects, SpeakAll(a.m, ss[1..]).effects);
      assert [ss[0]] + ss[1..] == ss;
    }
  }

  /** Requests made while the engine starts are spoken in the order they
      were made once it reports success, after the locale is selected and
      the listener is told; later requests go straight to the engine. */
  lemma QueuedThenSpoken(listener: nat, early: seq<Speech>, late: seq<Speech>)
    ensures var i := Initialize(Start, listener);
      var q := SpeakAll(i.m, early);
      var c := OnInit(q.m, listener, true);
      var after := SpeakAll(c.m, late);
      i.effects == [Create(listener)] && q.effects == []
      && c.effects == [SetLocale(UsEnglish), Notify(listener, true)] + SayAll(early)
      && Said(c.effects) == early
      && Said(c.effects + after.effects) == early + late
      && Status(after.m) == "Initialized" && after.m.pending == []
  {
    var i := Initialize(Start, listener);
    SpeakAllQueues(i.m, early);
    var q := SpeakAll(i.m, early);
    var c := OnInit(q.m, listener, true);
    SpeakAllSpeaks(c.m, late);
    SaidConcat(c.effects, SpeakAll(c.m, late).effects);
  }

  /** A failed start drops the queued requests and leaves the manager not
      ready, so later requests queue up again. */
  lemma FailedStartDrops(listener: nat, early: seq<Speech>, s: Speech)
    ensures var i := Initialize(Start, listener);
      var q := SpeakAll(i.m, early);
      var c := OnInit(q.m, listener, false);
      Said(c.effects) == [] && Status(c.m) == "Not Initialized"
      && Speak(c.m, s).m.pending == [s] && Speak(c.m, s).effects == []
  {
    var i := Initialize(Start, listener);
    SpeakAllQueues(i.m, early);
  }

  /** After `shutdown` the manager is not ready: requests queue, the
      language cannot be set, and a later `initialize` creates a fresh
      engine. */
  lemma ShutdownNotReady(m: Manager, s: Speech, locale: string, answer: int, listener: nat)
    ensures var d := Shutdown(m).m;
      !Ready(d) && Status(d) == "Not Initialized"
      && Speak(d, s).m.pending == m.pending + [s]
      && SetLanguage(d, locale, answer).0 == LangMissingData
      && Initialize(d, listener).effects == [Create(listener)]
  {
  }

  /** Asking twice for an engine creates one: the second caller is told the
      current flag at once. */
  lemma InitializeOnce(m: Manager, first: nat, second: nat)
    ensures var a := Initialize(m, first);
      Initialize(a.m, second) == Outcome(a.m, [Notify(second, m.initialized)])
  {
  }
}
