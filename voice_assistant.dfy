/**
 * Speech completion correlation in the voice assistant: each spoken text gets an
 * utterance id (the current time in milliseconds, in decimal), its completion
 * listener is stored under that id, and the engine's done or error callback for
 * the id invokes that listener once and forgets it. Blank text and an engine that
 * is not ready invoke the listener at once.
 */
module VoiceAssistant {
  import opened Text
  import opened Options

  /** The identity of a `SpeechCompletionListener` object. */
  type Listener = nat

  /** What the engine's `setLanguage` reports. */
  datatype LanguageResult = LangAvailable | LangMissingData | LangNotSupported

  /** A `speak` request handed to the engine. */
  datatype Utterance = Utterance(text: string, utteranceId: string)

  /** The assistant's state: the ready flag, whether an engine object exists, the pending
      listeners by utterance id, the listeners invoked so far (in order), and the speak
      requests made so far. */
  datatype Speech = Speech(isInitialized: bool, hasEngine: bool, listenerMap: map<string, Listener>,
                           fired: seq<Listener>, requests: seq<Utterance>)

  const INITIAL_SPEECH := Speech(false, false, map[], [], [])

  /** The utterance id made from the clock reading. */
  function UtteranceId(nowMillis: nat): string {
    NatToDecimal(nowMillis)
  }

  /** `speakTextAndWait(text, listener)` at time `nowMillis`. */
  function SpeakAndWait(s: Speech, text: string, listener: Listener, nowMillis: nat): Speech {
    if IsBlank(text) then s.(fired := s.fired + [listener])
    else if s.isInitialized then
      var id := UtteranceId(nowMillis);
      s.(listenerMap := s.listenerMap[id := listener],
         requests := if s.hasEngine then s.requests + [Utterance(text, id)] else s.requests)
    else s.(fired := s.fired + [listener])
  }

  /** `onDone(utteranceId)`: invokes the listener stored under the id, if any, and removes it. */
  function Done(s: Speech, utteranceId: Option<string>): Speech {
    match utteranceId
    case None => s
    case Some(id) =>
      if id in s.listenerMap then s.(fired := s.fired + [s.listenerMap[id]], listenerMap := s.listenerMap - {id})
      else s
  }

  /** `onError(utteranceId, errorCode)`: unblocks the waiting flow like `onDone`. */
  function Failed(s: Speech, utteranceId: Option<string>, errorCode: int): Speech {
    Done(s, utteranceId)
  }

  /** The deprecated `onError(utteranceId)`, which passes error code 0 on. */
  function FailedDeprecated(s: Speech, utteranceId: Option<string>): Speech {
    Failed(s, utteranceId, 0)
  }

  /** `initializeTextToSpeech`: creates an engine unless ready or one already exists. */
  function Initialize(s: Speech): Speech {
    if s.isInitialized || s.hasEngine then s else s.(hasEngine := true)
  }

  /** The engine's initialisation callback. With no engine left (shut down in the
      meantime), `setLanguage` gives null, which is not one of the two failures. */
  function InitCallback(s: Speech, success: bool, language: LanguageResult): Speech {
    if !success then s.(isInitialized := false)
    else if s.hasEngine && (language == LangMissingData || language == LangNotSupported) then
      s.(isInitialized := false)
    else s.(isInitialized := true)
  }

  /** `shutdownTextToSpeech`. */
  function Shutdown(s: Speech): Speech {
    s.(isInitialized := false, hasEngine := false)
  }

  /** Blank text: the listener is invoked at once and nothing is registered or spoken. */
  lemma BlankFiresAtOnce(s: Speech, text: string, listener: Listener, nowMillis: nat)
    requires IsBlank(text)
    ensures SpeakAndWait(s, text, listener, nowMillis) == s.(fired := s.fired + [listener])
  {
  }

  /** An engine that is not ready: the listener is invoked at once and nothing is registered. */
  lemma NotReadyFiresAtOnce(s: Speech, text: string, listener: Listener, nowMillis: nat)
    requires !s.isInitialized
    ensures SpeakAndWait(s, text, listener, nowMillis) == s.(fired := s.fired + [listener])
  {
  }

  /** Ready and non-blank: the listener is stored under the new id, and the request made
      carries that id; nothing fires yet. */
  lemma ReadyRegistersThenSpeaks(s: Speech, text: string, listener: Listener, nowMillis: nat)
    requires s.isInitialized && s.hasEngine && !IsBlank(text)
    ensures var r := SpeakAndWait(s, text, listener, nowMillis);
      && r.listenerMap == s.listenerMap[UtteranceId(nowMillis) := listener]
      && r.requests == s.requests + [Utterance(text, UtteranceId(nowMillis))]
      && r.fired == s.fired
  {
  }

  /** Two requests in the same millisecond share an id: the first listener is overwritten
      and only the second fires on completion. */
  lemma SameMillisecondOverwrites(s: Speech, text1: string, text2: string, l1: Listener, l2: Listener, nowMillis: nat)
    requires s.isInitialized && !IsBlank(text1) && !IsBlank(text2)
    ensures
      var r := Done(SpeakAndWait(SpeakAndWait(s, text1, l1, nowMillis), text2, l2, nowMillis), Some(UtteranceId(nowMillis)));
      r.fired == s.fired + [l2] && r.listenerMap == s.listenerMap - {UtteranceId(nowMillis)}
  {
    var id := UtteranceId(nowMillis);
    assert s.listenerMap[id := l1][id := l2] == s.listenerMap[id := l2];
    assert s.listenerMap[id := l2] - {id} == s.listenerMap - {id};
  }

  /** A completion invokes exactly the listener under its id, and no other entry changes. */
  lemma DoneFiresOnlyItsListener(s: Speech, id: string)
    requires id in s.listenerMap
    ensures var r := Done(s, Some(id));
      && r.fired == s.fired + [s.listenerMap[id]]
      && id !in r.listenerMap
      && (forall k | k in s.listenerMap && k != id :: k in r.listenerMap && r.listenerMap[k] == s.listenerMap[k])
      && r.requests == s.requests && r.isInitialized == s.isInitialized
  {
  }

  /** A completion for an unknown id, or a second completion for the same id, changes nothing. */
  lemma UnknownOrRepeatedDoneIsNoOp(s: Speech, id: string)
    ensures id !in s.listenerMap ==> Done(s, Some(id)) == s
    ensures Done(Done(s, Some(id)), Some(id)) == Done(s, Some(id))
  {
  }

  /** Both error callbacks behave exactly as `onDone`. */
  lemma ErrorsAreDone(s: Speech, utteranceId: Option<string>, errorCode: int)
    ensures Failed(s, utteranceId, errorCode) == Done(s, utteranceId)
    ensures FailedDeprecated(s, utteranceId) == Done(s, utteranceId)
  {
  }

  /** Initialisation does nothing when ready or when an engine exists; shutdown clears both. */
  lemma InitializeGuard(s: Speech)
    ensures s.isInitialized || s.hasEngine ==> Initialize(s) == s
    ensures !s.isInitialized && !s.hasEngine ==> Initialize(s).hasEngine
    ensures !Shutdown(s).isInitialized && !Shutdown(s).hasEngine
  {
  }

  /** An initialisation callback that arrives after shutdown marks the assistant ready with
      no engine; the next request is registered but never spoken, so no completion will come. */
  lemma LateInitCallbackAfterShutdown(text: string, listener: Listener, nowMillis: nat)
    requires !IsBlank(text)
    ensures
      var s := InitCallback(Shutdown(Initialize(INITIAL_SPEECH)), true, LangAvailable);
      var r := SpeakAndWait(s, text, listener, nowMillis);
      && s.isInitialized && !s.hasEngine
      && UtteranceId(nowMillis) in r.listenerMap && r.requests == [] && r.fired == []
  {
  }

  /** The corrected initialisation callback: the assistant is ready only while an engine
      exists to speak and to report completions. */
  function InitCallbackCorrected(s: Speech, success: bool, language: LanguageResult): Speech {
    if !success || !s.hasEngine then s.(isInitialized := false)
    else if language == LangMissingData || language == LangNotSupported then s.(isInitialized := false)
    else s.(isInitialized := true)
  }

  /** Ready means an engine exists. */
  predicate ReadyHasEngine(s: Speech) {
    s.isInitialized ==> s.hasEngine
  }

  /** The calls the assistant receives: a speak request, the engine's three completion
      callbacks, the two life-cycle calls and the initialisation callback. */
  datatype SpeechEvent =
    | SpeakEvent(text: string, listener: Listener, nowMillis: nat)
    | DoneEvent(doneId: Option<string>)
    | ErrorEvent(errorId: Option<string>, errorCode: int)
    | ErrorDeprecatedEvent(deprecatedId: Option<string>)
    | InitializeEvent
    | InitCallbackEvent(success: bool, language: LanguageResult)
    | ShutdownEvent

  /** One call to the assistant, with the corrected initialisation callback. */
  function StepCorrected(s: Speech, ev: SpeechEvent): Speech {
    match ev
    case SpeakEvent(text, listener, nowMillis) => SpeakAndWait(s, text, listener, nowMillis)
    case DoneEvent(id) => Done(s, id)
    case ErrorEvent(id, code) => Failed(s, id, code)
    case ErrorDeprecatedEvent(id) => FailedDeprecated(s, id)
    case InitializeEvent => Initialize(s)
    case InitCallbackEvent(success, language) => InitCallbackCorrected(s, success, language)
    case ShutdownEvent => Shutdown(s)
  }

  lemma InitialReadyHasEngine()
    ensures ReadyHasEngine(INITIAL_SPEECH)
  {
  }

  /** Every call keeps "ready means an engine exists" once the callback is corrected. */
  lemma StepCorrectedKeepsReadyHasEngine(s: Speech, ev: SpeechEvent)
    requires ReadyHasEngine(s)
    ensures ReadyHasEngine(StepCorrected(s, ev))
  {
  }

  /** Under that invariant a registered listener always goes with a request to the engine,
      whose completion will invoke it. */
  lemma ReadyRequestIsSpoken(s: Speech, text: string, listener: Listener, nowMillis: nat)
    requires ReadyHasEngine(s) && s.isInitialized && !IsBlank(text)
    ensures var r := SpeakAndWait(s, text, listener, nowMillis);
      && r.listenerMap == s.listenerMap[UtteranceId(nowMillis) := listener]
      && r.requests == s.requests + [Utterance(text, UtteranceId(nowMillis))]
  {
  }

  /** The corrected callback agrees with the code whenever an engine exists. */
  lemma InitCallbackCorrectedAgrees(s: Speech, success: bool, language: LanguageResult)
    requires s.hasEngine
    ensures InitCallbackCorrected(s, success, language) == InitCallback(s, success, language)
  {
  }

  /** On the late callback of `LateInitCallbackAfterShutdown` the corrected assistant stays
      not ready, so the next request's listener is invoked at once. */
  lemma CorrectedLateCallbackStaysNotReady(text: string, listener: Listener, nowMillis: nat)
    ensures
      var s := InitCallbackCorrected(Shutdown(Initialize(INITIAL_SPEECH)), true, LangAvailable);
      var r := SpeakAndWait(s, text, listener, nowMillis);
      && !s.isInitialized && r.fired == [listener] && r.listenerMap == map[]
  {
  }

  /** No listener appears twice among those invoked. */
  predicate FiredOnce(fired: seq<Listener>) {
    forall i, j | 0 <= i < j < |fired| :: fired[i] != fired[j]
  }

  /** Each pending listener is stored under one id only and has not been invoked. */
  predicate Pending(s: Speech) {
    && (forall a, b | a in s.listenerMap && b in s.listenerMap && a != b :: s.listenerMap[a] != s.listenerMap[b])
    && (forall k | k in s.listenerMap :: s.listenerMap[k] !in s.fired)
  }

  /** The invariant under which every listener is invoked at most once. */
  predicate AtMostOnce(s: Speech) {
    FiredOnce(s.fired) && Pending(s)
  }

  /** A listener object never handed over before. */
  predicate IsNewListener(s: Speech, listener: Listener) {
    listener !in s.fired && forall k | k in s.listenerMap :: s.listenerMap[k] != listener
  }

  lemma InitialAtMostOnce()
    ensures AtMostOnce(INITIAL_SPEECH)
  {
  }

  /** Appending a listener not yet invoked keeps the invoked ones distinct. */
  lemma FireNew(fired: seq<Listener>, listener: Listener)
    requires FiredOnce(fired) && listener !in fired
    ensures FiredOnce(fired + [listener])
  {
    var f := fired + [listener];
    forall i, j | 0 <= i < j < |f|
      ensures f[i] != f[j]
    {
      if j == |fired| {
        assert f[i] == fired[i];
      }
    }
  }

  /** A request with a new listener keeps every listener invoked at most once. */
  lemma SpeakKeepsAtMostOnce(s: Speech, text: string, listener: Listener, nowMillis: nat)
    requires AtMostOnce(s) && IsNewListener(s, listener)
    ensures AtMostOnce(SpeakAndWait(s, text, listener, nowMillis))
  {
    if IsBlank(text) || !s.isInitialized {
      FireNew(s.fired, listener);
      var r := SpeakAndWait(s, text, listener, nowMillis);
      forall k | k in r.listenerMap
        ensures r.listenerMap[k] !in r.fired
      {
        assert r.listenerMap[k] != listener;
      }
    }
  }

  /** A completion keeps every listener invoked at most once. */
  lemma DoneKeepsAtMostOnce(s: Speech, utteranceId: Option<string>)
    requires AtMostOnce(s)
    ensures AtMostOnce(Done(s, utteranceId))
  {
    if utteranceId.Some? && utteranceId.value in s.listenerMap {
      var id := utteranceId.value;
      var l := s.listenerMap[id];
      FireNew(s.fired, l);
      var r := Done(s, utteranceId);
      forall k | k in r.listenerMap
        ensures r.listenerMap[k] !in r.fired
      {
        assert k != id && r.listenerMap[k] == s.listenerMap[k];
        assert s.listenerMap[k] != l;
      }
    }
  }

  class Assistant {
    var isInitialized: bool
    var hasEngine: bool
    var listenerMap: map<string, Listener>
    var fired: seq<Listener>
    var requests: seq<Utterance>

    function State(): Speech
      reads this
    {
      Speech(isInitialized, hasEngine, listenerMap, fired, requests)
    }

    constructor ()
      ensures State() == INITIAL_SPEECH
    {
      isInitialized := false;
      hasEngine := false;
      listenerMap := map[];
      fired := [];
      requests := [];
    }

    method OnSpeechFinished(listener: Listener)
      modifies this
      ensures State() == old(State()).(fired := old(fired) + [listener])
    {
      fired := fired + [listener];
    }

    /** `speakTextAndWait`; the clock reading is a parameter. */
    method SpeakTextAndWait(text: string, listener: Listener, nowMillis: nat)
      modifies this
      ensures State() == SpeakAndWait(old(State()), text, listener, nowMillis)
    {
      if IsBlank(text) {
        OnSpeechFinished(listener);
        return;
      }
      if isInitialized {
        var utteranceId := UtteranceId(nowMillis);
        listenerMap := listenerMap[utteranceId := listener];
        if hasEngine {
          requests := requests + [Utterance(text, utteranceId)];
        }
      } else {
        OnSpeechFinished(listener);
      }
    }

    method OnDone(utteranceId: Option<string>)
      modifies this
      ensures State() == Done(old(State()), utteranceId)
    {
      if utteranceId.Some? && utteranceId.value in listenerMap {
        OnSpeechFinished(listenerMap[utteranceId.value]);
      }
      if utteranceId.Some? {
        listenerMap := listenerMap - {utteranceId.value};
      }
    }

    method OnError(utteranceId: Option<string>, errorCode: int)
      modifies this
      ensures State() == Failed(old(State()), utteranceId, errorCode)
    {
      if utteranceId.Some? && utteranceId.value in listenerMap {
        OnSpeechFinished(listenerMap[utteranceId.value]);
      }
      if utteranceId.Some? {
        listenerMap := listenerMap - {utteranceId.value};
      }
    }

    method OnErrorDeprecated(utteranceId: Option<string>)
      modifies this
      ensures State() == FailedDeprecated(old(State()), utteranceId)
    {
      OnError(utteranceId, 0);
    }

    method InitializeTextToSpeech()
      modifies this
      ensures State() == Initialize(old(State()))
    {
      if isInitialized || hasEngine {
        return;
      }
      hasEngine := true;
    }

    /** The status callback the engine makes once it has started. */
    method OnInitStatus(success: bool, language: LanguageResult)
      modifies this
      ensures State() == InitCallback(old(State()), success, language)
    {
      if success {
        var missing := hasEngine && (language == LangMissingData || language == LangNotSupported);
        if missing {
          isInitialized := false;
        } else {
          isInitialized := true;
        }
      } else {
        isInitialized := false;
      }
    }

    method ShutdownTextToSpeech()
      modifies this
      ensures State() == Shutdown(old(State()))
    {
      isInitialized := false;
      hasEngine := false;
    }
  }
}
