/** The session state of the excuse generator page: the displayed excuse, the
    five most recent excuses, the loading and playing flags, and the one-slot cache
    of synthesized audio, with the two handlers that change them. */
module ExcusePage {
  import opened Wrappers
  import opened Streams
  import ExcuseRoute

  const FailureText := "Failed to generate an excuse. Please try again."
  const HistoryLimit := 5

  // --------------------------------------------------------------- history

  /** `[accumulatedExcuse, ...prev.slice(0, 4)]`. */
  function PushHistory(prev: seq<string>, e: string): (h: seq<string>)
    ensures |h| == if |prev| < HistoryLimit then |prev| + 1 else HistoryLimit
    ensures h[0] == e && h[1..] <= prev
  {
    [e] + prev[..if |prev| < HistoryLimit - 1 then |prev| else HistoryLimit - 1]
  }

  /** The history after a run of successful generations, oldest first. */
  function Replay(prev: seq<string>, es: seq<string>): (h: seq<string>)
    ensures es != [] ==> |h| >= 1 && h[0] == es[|es| - 1]
    ensures |prev| <= HistoryLimit ==> |h| <= HistoryLimit
  {
    if es == [] then prev else PushHistory(Replay(prev, es[..|es| - 1]), es[|es| - 1])
  }

  function Reversed(s: seq<string>): (r: seq<string>)
    ensures |r| == |s|
    ensures forall k :: 0 <= k < |s| ==> r[k] == s[|s| - 1 - k]
  {
    if s == [] then [] else [s[|s| - 1]] + Reversed(s[..|s| - 1])
  }

  function Min(a: int, b: int): int {
    if a < b then a else b
  }

  /** One push onto a history that is a prefix of `xs` of the capped length. */
  lemma PushPrefix(xs: seq<string>, e: string)
    ensures PushHistory(xs[..Min(HistoryLimit, |xs|)], e) == ([e] + xs)[..Min(HistoryLimit, |xs| + 1)]
  {
    var r := xs[..Min(HistoryLimit, |xs|)];
    var m := if |r| < HistoryLimit - 1 then |r| else HistoryLimit - 1;
    assert r[..m] == xs[..m];
    assert ([e] + xs)[..m + 1] == [e] + xs[..m];
  }

  /** The history is the most recent excuses, newest first, in front of what was
      there before, cut to five entries. */
  lemma {:induction false} ReplayNewestFirst(prev: seq<string>, es: seq<string>)
    requires |prev| <= HistoryLimit
    ensures Replay(prev, es) == (Reversed(es) + prev)[..Min(HistoryLimit, |es| + |prev|)]
    decreases |es|
  {
    if es == [] {
      assert Reversed(es) + prev == prev;
    } else {
      var n := |es| - 1;
      var e, older := es[n], es[..n];
      ReplayNewestFirst(prev, older);
      var xs := Reversed(older) + prev;
      PushPrefix(xs, e);
      assert Reversed(es) + prev == [e] + xs;
    }
  }

  /** Six successful generations E1..E6 from an empty history leave
      `[E6, E5, E4, E3, E2]`: E1 has been evicted. */
  lemma SixGenerations(e1: string, e2: string, e3: string, e4: string, e5: string, e6: string)
    ensures Replay([], [e1, e2, e3, e4, e5, e6]) == [e6, e5, e4, e3, e2]
  {
    var es := [e1, e2, e3, e4, e5, e6];
    ReplayNewestFirst([], es);
    assert Reversed([e1]) == [e1];
    assert [e1, e2][..1] == [e1];
    assert Reversed([e1, e2]) == [e2, e1];
    assert [e1, e2, e3][..2] == [e1, e2];
    assert Reversed([e1, e2, e3]) == [e3, e2, e1];
    assert [e1, e2, e3, e4][..3] == [e1, e2, e3];
    assert Reversed([e1, e2, e3, e4]) == [e4, e3, e2, e1];
    assert [e1, e2, e3, e4, e5][..4] == [e1, e2, e3, e4];
    assert Reversed([e1, e2, e3, e4, e5]) == [e5, e4, e3, e2, e1];
    assert es[..5] == [e1, e2, e3, e4, e5];
    assert Reversed(es) == [e6, e5, e4, e3, e2, e1];
  }

  // ------------------------------------------------------ streamed excuse

  /** The text shown after each read: the chunks so far, concatenated. */
  function RunningTotals(cs: seq<string>): (r: seq<string>)
    ensures |r| == |cs|
    ensures forall k :: 0 <= k < |cs| ==> r[k] == Concat(cs[..k + 1])
  {
    if cs == [] then []
    else
      var n := |cs| - 1;
      var r := RunningTotals(cs[..n]);
      assert cs[..n + 1] == cs;
      forall k | 0 <= k < n
        ensures r[k] == Concat(cs[..k + 1])
      {
        assert cs[..n][..k + 1] == cs[..k + 1];
      }
      r + [Concat(cs)]
  }

  lemma RunningTotalsSnoc(cs: seq<string>, i: nat)
    requires i < |cs|
    ensures RunningTotals(cs[..i + 1]) == RunningTotals(cs[..i]) + [Concat(cs[..i + 1])]
  {
    assert cs[..i + 1][..i] == cs[..i];
  }

  /** The excuse the page ends up with when the whole body was read, or `None`
      when the request, the status, the body or a read failed. */
  function Received(reply: Reply): Option<string> {
    if reply.FetchFailed? || !IsOk(reply.status) || reply.body.None? || reply.body.value.broken then None
    else Some(Concat(reply.body.value.chunks))
  }

  /** The chunks the page reads and shows before it stops, successfully or not. */
  function ReadChunks(reply: Reply): seq<string> {
    if reply.FetchFailed? || !IsOk(reply.status) || reply.body.None? then []
    else reply.body.value.chunks
  }

  /** Every text given to `setExcuse` during one generation: the reset to `''`,
      the running concatenation after each read, and the failure text when the
      generation failed. */
  function Displays(reply: Reply): seq<string> {
    [""] + RunningTotals(ReadChunks(reply)) + (if Received(reply).None? then [FailureText] else [])
  }

  /** While streaming the shown text only grows: each display extends the one
      before it by the next chunk; on success the last display is the received
      excuse, on failure the failure text. */
  lemma DisplaysGrow(reply: Reply)
    ensures Displays(reply)[0] == ""
    ensures forall k :: 0 <= k < |ReadChunks(reply)| ==>
      Displays(reply)[k + 1] == Displays(reply)[k] + ReadChunks(reply)[k]
    ensures Displays(reply)[|Displays(reply)| - 1] ==
      match Received(reply) case Some(text) => text case None => FailureText
  {
    var cs := ReadChunks(reply);
    var d := Displays(reply);
    forall k | 0 <= k < |cs|
      ensures d[k + 1] == d[k] + cs[k]
    {
      ConcatSnoc(cs, k);
      assert cs[..0] == [];
    }
    if Received(reply).Some? {
      assert cs[..|cs|] == cs;
    }
  }

  /** The page reading the route: the route answers with a body whose reads all
      succeed, so whatever the inference service does and however the relayed
      text is cut into chunks, the page ends with the relayed text as its excuse;
      a rejected request to the inference service reaches the page as the route's
      fallback text, never as the page's own failure text. */
  lemma ServedByRoute(upstream: Reply, parse: string -> ExcuseRoute.Parsed, cs: seq<string>)
    requires Concat(cs) == Concat(ExcuseRoute.Respond(upstream, parse))
    ensures Received(Responded(200, Some(Body(cs, false)))) == Some(Concat(ExcuseRoute.Respond(upstream, parse)))
    ensures upstream.FetchFailed? ==> Received(Responded(200, Some(Body(cs, false)))) == Some(ExcuseRoute.Fallback)
    ensures ExcuseRoute.Fallback != FailureText
  {
    assert ExcuseRoute.Fallback != FailureText by {
      assert ExcuseRoute.Fallback[19] == 'e' && FailureText[19] == 'a';
    }
    if upstream.FetchFailed? {
      ExcuseRoute.ErrorPaths(upstream, parse);
      assert [ExcuseRoute.Fallback][..0] == [];
      assert Concat([ExcuseRoute.Fallback]) == "" + ExcuseRoute.Fallback == ExcuseRoute.Fallback;
    }
  }

  /** One entry per `setExcuse`: the text, and whether the page was loading. */
  datatype Frame = Frame(excuse: string, loading: bool)

  /** The frames of a run of `setExcuse` calls made while loading. */
  function WhileLoading(texts: seq<string>): seq<Frame> {
    if texts == [] then [] else WhileLoading(texts[..|texts| - 1]) + [Frame(texts[|texts| - 1], true)]
  }

  /** Every frame of the run shows its text with the loading flag set. */
  lemma {:induction false} WhileLoadingFrames(texts: seq<string>)
    ensures |WhileLoading(texts)| == |texts|
    ensures forall k :: 0 <= k < |texts| ==> WhileLoading(texts)[k] == Frame(texts[k], true)
    decreases |texts|
  {
    if texts != [] {
      WhileLoadingFrames(texts[..|texts| - 1]);
    }
  }

  lemma WhileLoadingSnoc(texts: seq<string>, t: string)
    ensures WhileLoading(texts + [t]) == WhileLoading(texts) + [Frame(t, true)]
  {
    assert (texts + [t])[..|texts|] == texts;
  }

  lemma {:induction false} WhileLoadingAppend(a: seq<string>, b: seq<string>)
    ensures WhileLoading(a + b) == WhileLoading(a) + WhileLoading(b)
    decreases |b|
  {
    if b == [] {
      assert a + b == a;
    } else {
      var n := |b| - 1;
      WhileLoadingAppend(a, b[..n]);
      assert a + b == (a + b[..n]) + [b[n]];
      WhileLoadingSnoc(a + b[..n], b[n]);
      WhileLoadingSnoc(b[..n], b[n]);
      assert b == b[..n] + [b[n]];
      AppendAssoc(WhileLoading(a), WhileLoading(b[..n]), [Frame(b[n], true)]);
    }
  }

  /** The frames of one generation, in the order the page records them: the
      reset, one per running total, and the failure text when it failed. */
  lemma GenerationFrames(before: seq<Frame>, totals: seq<string>, failed: bool)
    ensures before + [Frame("", true)] + WhileLoading(totals)
      + (if failed then [Frame(FailureText, true)] else [])
      == before + WhileLoading([""] + totals + (if failed then [FailureText] else []))
  {
    WhileLoadingSnoc([], "");
    assert [] + [""] == [""];
    WhileLoadingAppend([""], totals);
    if failed {
      WhileLoadingSnoc([""] + totals, FailureText);
    } else {
      assert [""] + totals + [] == [""] + totals;
    }
  }

  // ---------------------------------------------------------- audio cache

  /** The `audioData` slot: the text the audio was made for, and the audio. */
  datatype AudioData = AudioData(text: string, data: string)

  /** What fetching the speech service yields: a rejected request, a non-OK status
      or a body that is not JSON, or the JSON's `status` (as truthiness) and
      `v_data` (as the text interpolated into the audio source). */
  datatype TtsReply = TtsFailed | TtsData(status: bool, vData: string)

  /** The effect of one `playTTS`: the new cache slot, whether the speech service
      was called, and which audio started playing. */
  datatype TtsOutcome = TtsOutcome(audioData: AudioData, fetched: bool, played: Option<string>)

  /** `audioData.text === excuse`. */
  predicate CacheHit(cache: AudioData, excuse: string) {
    cache.text == excuse
  }

  /** `playTTS` as a function of the cache, the displayed excuse, whether playing
      the cached audio succeeds, the speech service's reply and whether playing
      fresh audio succeeds. */
  function PlayOutcome(cache: AudioData, excuse: string, cachedPlays: bool, reply: TtsReply, freshPlays: bool): (r: TtsOutcome)
    ensures !r.fetched <==> CacheHit(cache, excuse) && cachedPlays
    ensures !r.fetched ==> r.played == Some(cache.data) && r.audioData == cache
    ensures r.fetched && reply.TtsData? && reply.status && freshPlays ==>
      r.audioData == AudioData(excuse, reply.vData) && r.played == Some(reply.vData)
    ensures r.fetched && !(reply.TtsData? && reply.status && freshPlays) ==>
      r.audioData == cache && r.played == None
  {
    if CacheHit(cache, excuse) && cachedPlays then TtsOutcome(cache, false, Some(cache.data))
    else if reply.TtsData? && reply.status && freshPlays then
      TtsOutcome(AudioData(excuse, reply.vData), true, Some(reply.vData))
    else TtsOutcome(cache, true, None)
  }

  /** The slot only ever holds audio made for a text that was displayed: after
      any `playTTS` it is unchanged or keyed by the displayed excuse; audio made
      for another text is never played from it. */
  lemma CacheKeyedByExcuse(cache: AudioData, excuse: string, cachedPlays: bool, reply: TtsReply, freshPlays: bool)
    ensures var r := PlayOutcome(cache, excuse, cachedPlays, reply, freshPlays);
      (r.audioData == cache || r.audioData.text == excuse) &&
      (!CacheHit(cache, excuse) ==> r.fetched)
  {
  }

  /** Asking twice for the same excuse with no change in between calls the speech
      service at most once: once audio has played for the displayed excuse, the
      next request is served from the cache when its playback succeeds. */
  lemma SecondRequestFromCache(cache: AudioData, excuse: string, cachedPlays: bool, reply: TtsReply, freshPlays: bool,
                               reply2: TtsReply, freshPlays2: bool)
    requires PlayOutcome(cache, excuse, cachedPlays, reply, freshPlays).played.Some?
    ensures var first := PlayOutcome(cache, excuse, cachedPlays, reply, freshPlays);
      !PlayOutcome(first.audioData, excuse, true, reply2, freshPlays2).fetched
  {
  }

  // ------------------------------------------------------------------ page

  /** The component's state (`useState` slots) that the two handlers change.
      `Shown` and `Played` record, for the proofs, every `setExcuse` and every
      audio playback that started. */
  class Page {
    var excuse: string
    var history: seq<string>
    var isLoading: bool
    var isPlaying: bool
    var audioData: AudioData
    ghost var Shown: seq<Frame>
    ghost var Played: seq<string>

    constructor ()
      ensures excuse == "" && history == [] && !isLoading && !isPlaying
      ensures audioData == AudioData("", "") && Shown == [] && Played == []
    {
      excuse := "";
      history := [];
      isLoading := false;
      isPlaying := false;
      audioData := AudioData("", "");
      Shown := [];
      Played := [];
    }

    /** `setExcuse(text)`. */
    method SetExcuse(text: string)
      modifies this
      ensures excuse == text && Shown == old(Shown) + [Frame(text, isLoading)]
      ensures history == old(history) && isLoading == old(isLoading) && isPlaying == old(isPlaying)
      ensures audioData == old(audioData) && Played == old(Played)
    {
      excuse := text;
      Shown := Shown + [Frame(text, isLoading)];
    }

    /** The read loop of `generateExcuse`: each chunk is appended to the
        accumulated excuse, which is shown at once. */
    method ShowStream(chunks: seq<string>) returns (accumulated: string)
      requires isLoading && excuse == ""
      modifies this
      ensures accumulated == Concat(chunks) && excuse == accumulated
      ensures Shown == old(Shown) + WhileLoading(RunningTotals(chunks))
      ensures history == old(history) && isLoading == old(isLoading) && isPlaying == old(isPlaying)
      ensures audioData == old(audioData) && Played == old(Played)
    {
      accumulated := "";
      var i := 0;
      while i < |chunks|
        invariant i <= |chunks| && isLoading
        invariant accumulated == Concat(chunks[..i]) && excuse == accumulated
        invariant Shown == old(Shown) + WhileLoading(RunningTotals(chunks[..i]))
        invariant history == old(history) && isPlaying == old(isPlaying)
        invariant audioData == old(audioData) && Played == old(Played)
      {
        ghost var totals := RunningTotals(chunks[..i]);
        accumulated := accumulated + chunks[i];
        ConcatSnoc(chunks, i);
        SetExcuse(accumulated);
        WhileLoadingSnoc(totals, accumulated);
        AppendAssoc(old(Shown), WhileLoading(totals), [Frame(accumulated, true)]);
        RunningTotalsSnoc(chunks, i);
        i := i + 1;
      }
      assert chunks[..i] == chunks;
    }

    /** `generateExcuse`: loading on, excuse reset, then the streamed reply of the
        route is read chunk by chunk and shown as it grows; on success it goes to
        the front of the history, on any failure the failure text is shown and
        the history is left alone; loading is off again at the end. */
    method GenerateExcuse(reply: Reply)
      modifies this
      ensures !isLoading
      ensures Shown == old(Shown) + WhileLoading(Displays(reply))
      ensures match Received(reply)
        case Some(text) => excuse == text && history == PushHistory(old(history), text)
        case None => excuse == FailureText && history == old(history)
      ensures isPlaying == old(isPlaying) && audioData == old(audioData) && Played == old(Played)
    {
      isLoading := true;
      SetExcuse("");
      var accumulated := "";
      var failed: bool;
      if reply.FetchFailed? || !IsOk(reply.status) || reply.body.None? {
        failed := true;
        assert ReadChunks(reply) == [] && Received(reply) == None;
        assert Shown == old(Shown) + [Frame("", true)] + WhileLoading(RunningTotals([]));
      } else {
        var body := reply.body.value;
        accumulated := ShowStream(body.chunks);
        failed := body.broken;
        assert ReadChunks(reply) == body.chunks;
        assert Received(reply) == if failed then None else Some(accumulated);
      }
      ghost var totals := RunningTotals(ReadChunks(reply));
      GenerationFrames(old(Shown), totals, failed);
      assert Displays(reply) == [""] + totals + (if failed then [FailureText] else []);
      if failed {
        SetExcuse(FailureText);
      } else {
        history := PushHistory(history, accumulated);
      }
      isLoading := false;
    }

    /** `playTTS`: the cached audio is played only when it was made for the
        displayed excuse, and a successful cached playback returns without calling
        the speech service; otherwise the service is called, and the cache is
        overwritten only when the response is OK, its `status` is truthy and the
        fresh audio played. `isPlaying` is off again at the end. */
    method PlayTts(cachedPlays: bool, reply: TtsReply, freshPlays: bool) returns (fetched: bool)
      modifies this
      ensures var r := PlayOutcome(old(audioData), old(excuse), cachedPlays, reply, freshPlays);
        audioData == r.audioData && fetched == r.fetched &&
        Played == old(Played) + (match r.played case Some(a) => [a] case None => [])
      ensures !isPlaying
      ensures excuse == old(excuse) && history == old(history) && isLoading == old(isLoading) && Shown == old(Shown)
    {
      if audioData.text == excuse {
        isPlaying := true;
        if cachedPlays {
          Played := Played + [audioData.data];
          isPlaying := false;
          return false;
        }
        isPlaying := false;
      }
      isPlaying := true;
      fetched := true;
      if reply.TtsData? && reply.status && freshPlays {
        Played := Played + [reply.vData];
        audioData := AudioData(excuse, reply.vData);
      }
      isPlaying := false;
    }
  }
}
