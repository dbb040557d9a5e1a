/**
 * `download_video` and `confirm_download_choice`: choose the output name,
 * then either fetch a stream that carries its own audio, or fetch the
 * video and the best audio stream into temporary files and launch the
 * combiner with the container's codec pair. The catalog's choice of the
 * best audio stream is an input.
 */
module Session {
  import opened Wrappers
  import opened Text
  import opened Process
  import opened Retry
  import opened Naming
  import opened Catalog

  /** `codec_map`: container extension to (video codec, audio codec). */
  const CodecMap: map<string, (string, string)> :=
    map["mp4" := ("libx264", "aac"), "webm" := ("libvpx", "libvorbis"), "mkv" := ("libx264", "aac")]

  /** Only the three containers have codecs; mp4 and mkv share H.264 with AAC, webm uses VP8 with Vorbis. */
  function CodecFor(ext: string): (r: Option<(string, string)>)
    ensures r.Some? <==> ext == "mp4" || ext == "webm" || ext == "mkv"
    ensures ext == "mp4" || ext == "mkv" ==> r == Some(("libx264", "aac"))
    ensures ext == "webm" ==> r == Some(("libvpx", "libvorbis"))
  {
    if ext in CodecMap then Some(CodecMap[ext]) else None
  }

  /** What `confirm_download_choice` returns, or that its prompt met the end of input. */
  datatype Confirmation = Use(name: string) | Decline | NoInput

  /**
   * The prompt of `confirm_download_choice`, asked because `name` exists:
   * read answers until "s" (take the least free numbered variant) or "n".
   */
  function AskOverwrite(w: Proc, name: string): (r: (Proc, Confirmation))
    ensures r.0 == w.(stdin := r.0.stdin)
    ensures r.1.Use? ==> r.1.name == UniqueName(w.files.Keys, name)
    decreases |w.stdin|
  {
    if w.stdin == [] then (w, NoInput)
    else
      var w' := w.(stdin := w.stdin[1..]);
      match AnswerOf(w.stdin[0])
      case Yes => (w', Use(UniqueName(w.files.Keys, name)))
      case No => (w', Decline)
      case Invalid => AskOverwrite(w', name)
  }

  /**
   * The prompt is settled by the first line that answers it, and every
   * line up to that one is consumed: "s" gives the least free numbered
   * variant of the name, "n" declines; with no answering line all input is
   * consumed and the prompt meets the end of input.
   */
  lemma {:induction false} AskOverwriteAnswers(w: Proc, name: string)
    ensures match FirstAnswer(w.stdin)
      case None => AskOverwrite(w, name) == (w.(stdin := []), NoInput)
      case Some(i) =>
        && AskOverwrite(w, name).0 == w.(stdin := w.stdin[i + 1..])
        && AskOverwrite(w, name).1 == if AnswerOf(w.stdin[i]) == Yes then Use(UniqueName(w.files.Keys, name)) else Decline
    decreases |w.stdin|
  {
    if w.stdin != [] && AnswerOf(w.stdin[0]) == Invalid {
      var w' := w.(stdin := w.stdin[1..]);
      AskOverwriteAnswers(w', name);
      match FirstAnswer(w'.stdin)
      case None =>
      case Some(i) =>
        assert w'.stdin[i + 1..] == w.stdin[i + 2..];
    }
  }

  /**
   * `confirm_download_choice`: a free name is used as it is; a taken one is
   * asked about. The name confirmed never names an existing file, so
   * nothing already there is appended to, and only input lines are consumed.
   */
  function Confirm(w: Proc, name: string): (r: (Proc, Confirmation))
    ensures r.1.Use? ==> r.1.name !in w.files
    ensures name !in w.files ==> r == (w, Use(name))
    ensures r.0 == w.(stdin := r.0.stdin)
  {
    if name !in w.files then (w, Use(name)) else AskOverwrite(w, name)
  }

  /** How `download_video` ends. */
  datatype Ending =
    | MalformedMime           // the MIME type has no '/': IndexError, caught and logged
    | Declined                // the user would not download under a new name
    | VideoWithAudio          // the stream with its own audio track was fetched
    | NoAudioStream           // no separate audio stream: nothing is fetched
    | Unsupported(ext: string) // both parts fetched, no codec pair for the container
    | Combined                // both parts fetched and the combiner launched
    | Failed(error: Outcome)  // NameError or EOFError, caught and logged
    | Exited                  // "n" at the retry prompt: SystemExit leaves the function

  /** Outcomes that leave `download_with_retries` as an exception rather than a return. */
  predicate Raises(o: Outcome) {
    o == NameError || o == EndOfInput || o == Cancelled
  }

  /**
   * The ending an escaping outcome gives: the exit from answering "n" leaves
   * `download_video`, since `SystemExit` is not an `Exception`; every other
   * one is caught and logged as it is.
   */
  function EndingOf(o: Outcome): (e: Ending)
    ensures e.Failed? || e.Exited?
    ensures e == Exited <==> o == Cancelled
    ensures e.Failed? ==> e.error == o
  {
    if o == Cancelled then Exited else Failed(o)
  }

  /** `download_with_progress`: record the launch, then download with the default parameters. */
  function StreamDownload(net: Network, url: string, name: string, w: Proc): (r: (Proc, Outcome))
    ensures r.0.events == w.events + [Event.Fetch(url, name)]
    ensures r.0.tempVideo == w.tempVideo && r.0.tempAudio == w.tempAudio
    ensures r.1 != Exhausted
  {
    var w' := w.(events := w.events + [Event.Fetch(url, name)]);
    Download(net, Defaults, url, name, w')
  }

  /** The temporary video file, `{title}_temp.{ext}`. */
  function VideoTemp(title: string, ext: string): string {
    title + "_temp." + ext
  }

  /** The audio file, `{title}_{abr}.{subtype}`. */
  function AudioName(title: string, audio: Stream): string {
    title + "_" + audio.abr + "." + audio.subtype
  }

  /** The separate-audio path: set the temporary paths, then fetch the video. */
  function DualTrack(net: Network, title: string, ext: string, name: string, video: Stream, audio: Stream, w: Proc): (r: (Proc, Ending))
    ensures r.1.Combined? || r.1.Unsupported? || r.1.Failed? || r.1.Exited?
    ensures r.1.Failed? ==> r.1.error == NameError || r.1.error == EndOfInput
  {
    var w1 := w.(tempVideo := Some(VideoTemp(title, ext)), tempAudio := Some(AudioName(title, audio)));
    AfterVideo(net, title, ext, name, audio, StreamDownload(net, video.url, VideoTemp(title, ext), w1))
  }

  /** Once the video download returned, fetch the audio; if it raised, the exception ends the path. */
  function AfterVideo(net: Network, title: string, ext: string, name: string, audio: Stream, v: (Proc, Outcome)): (r: (Proc, Ending))
    ensures r.1.Combined? || r.1.Unsupported? || r.1.Failed? || r.1.Exited?
    ensures r.1.Failed? ==> r.1.error == NameError || r.1.error == EndOfInput
  {
    if Raises(v.1) then (v.0, EndingOf(v.1))
    else AfterAudio(title, ext, name, audio, StreamDownload(net, audio.url, AudioName(title, audio), v.0))
  }

  /** Once the audio download returned, look up the codecs and launch the combiner. */
  function AfterAudio(title: string, ext: string, name: string, audio: Stream, a: (Proc, Outcome)): (r: (Proc, Ending))
    ensures r.1.Combined? || r.1.Unsupported? || r.1.Failed? || r.1.Exited?
    ensures r.1.Failed? ==> r.1.error == NameError || r.1.error == EndOfInput
  {
    if Raises(a.1) then (a.0, EndingOf(a.1))
    else
      match CodecFor(ext)
      case None => (a.0, Unsupported(ext))
      case Some(codecs) => (a.0.(events := a.0.events + [Combine(VideoTemp(title, ext), AudioName(title, audio), name, codecs.0, codecs.1)]), Combined)
  }

  /** `download_video` for the selected stream; `bestAudio` is the catalog's best audio stream, if any. */
  function VideoSession(net: Network, title: string, selected: Stream, bestAudio: Option<Stream>, w: Proc): (r: (Proc, Ending))
    ensures r.1.Failed? ==> r.1.error == NameError || r.1.error == EndOfInput
  {
    var parts := Split(selected.mimeType, '/');
    if |parts| < 2 then (w, MalformedMime)
    else
      var ext := parts[1];
      var (w1, choice) := Confirm(w, title + "." + ext);
      match choice
      case NoInput => (w1, Failed(EndOfInput))
      case Decline => (w1, Declined)
      case Use(name) =>
        if selected.includesAudio then
          var (w2, o) := StreamDownload(net, selected.url, name, w1);
          (w2, if Raises(o) then EndingOf(o) else VideoWithAudio)
        else if bestAudio.None? then (w1, NoAudioStream)
        else DualTrack(net, title, ext, name, selected, bestAudio.value, w1)
  }

  /**
   * The combiner is launched exactly when the audio download returned and
   * the container has a codec pair, and then with that pair; otherwise the
   * state is left as the download left it.
   */
  lemma AfterAudioCombines(title: string, ext: string, name: string, audio: Stream, a: (Proc, Outcome))
    ensures var r := AfterAudio(title, ext, name, audio, a);
      r.1 == Combined <==> !Raises(a.1) && CodecFor(ext).Some?
    ensures var r := AfterAudio(title, ext, name, audio, a);
      r.1 == Combined ==> r.0 == a.0.(events := a.0.events + [Combine(VideoTemp(title, ext), AudioName(title, audio), name, CodecFor(ext).value.0, CodecFor(ext).value.1)])
    ensures var r := AfterAudio(title, ext, name, audio, a);
      r.1 != Combined ==> r.0 == a.0 && (r.1.Unsupported? <==> !Raises(a.1))
  {
  }

  /** The launches `AfterAudio` adds to those recorded before it. */
  lemma AfterAudioEvents(title: string, ext: string, name: string, audio: Stream, a: (Proc, Outcome), before: seq<Event>)
    requires a.0.events == before
    ensures var r := AfterAudio(title, ext, name, audio, a);
      r.1 == Combined ==> CodecFor(ext).Some? && r.0.events == before + [Combine(VideoTemp(title, ext), AudioName(title, audio), name, CodecFor(ext).value.0, CodecFor(ext).value.1)]
    ensures var r := AfterAudio(title, ext, name, audio, a);
      r.1.Unsupported? ==> CodecFor(ext).None? && r.0.events == before
  {
  }

  /** The launches `AfterVideo` adds to those recorded before it. */
  lemma AfterVideoEvents(net: Network, title: string, ext: string, name: string, audio: Stream, v: (Proc, Outcome), before: seq<Event>)
    requires v.0.events == before
    ensures var r := AfterVideo(net, title, ext, name, audio, v);
      r.1 == Combined ==> CodecFor(ext).Some? && r.0.events == before + [Event.Fetch(audio.url, AudioName(title, audio))] + [Combine(VideoTemp(title, ext), AudioName(title, audio), name, CodecFor(ext).value.0, CodecFor(ext).value.1)]
    ensures var r := AfterVideo(net, title, ext, name, audio, v);
      r.1.Unsupported? ==> CodecFor(ext).None? && r.0.events == before + [Event.Fetch(audio.url, AudioName(title, audio))]
  {
    if !Raises(v.1) {
      var a := StreamDownload(net, audio.url, AudioName(title, audio), v.0);
      AfterAudioEvents(title, ext, name, audio, a, a.0.events);
    }
  }

  /**
   * The separate-audio path in order: the temporary paths are recorded
   * first, then the video is fetched; the audio is fetched whenever the
   * video download returned, whatever it returned; only then can the
   * combiner run.
   */
  lemma DualTrackOrder(net: Network, title: string, ext: string, name: string, video: Stream, audio: Stream, w: Proc)
    ensures var w1 := w.(tempVideo := Some(VideoTemp(title, ext)), tempAudio := Some(AudioName(title, audio)));
      var v := StreamDownload(net, video.url, VideoTemp(title, ext), w1);
      && v.0.events == w.events + [Event.Fetch(video.url, VideoTemp(title, ext))]
      && (Raises(v.1) ==> DualTrack(net, title, ext, name, video, audio, w) == (v.0, EndingOf(v.1)))
      && (!Raises(v.1) ==> DualTrack(net, title, ext, name, video, audio, w) == AfterAudio(title, ext, name, audio, StreamDownload(net, audio.url, AudioName(title, audio), v.0)))
    ensures var r := DualTrack(net, title, ext, name, video, audio, w);
      r.0.tempVideo == Some(VideoTemp(title, ext)) && r.0.tempAudio == Some(AudioName(title, audio))
  {
    var w1 := w.(tempVideo := Some(VideoTemp(title, ext)), tempAudio := Some(AudioName(title, audio)));
    var v := StreamDownload(net, video.url, VideoTemp(title, ext), w1);
    if !Raises(v.1) {
      var a := StreamDownload(net, audio.url, AudioName(title, audio), v.0);
      AfterAudioCombines(title, ext, name, audio, a);
    }
  }

  /**
   * When both downloads return and the container has a codec pair, the
   * launches are exactly the video, the audio, then the combiner with that
   * pair.
   */
  lemma DualTrackLaunches(net: Network, title: string, ext: string, name: string, video: Stream, audio: Stream, w: Proc)
    ensures var r := DualTrack(net, title, ext, name, video, audio, w);
      r.1 == Combined ==> CodecFor(ext).Some? && r.0.events == w.events + [Event.Fetch(video.url, VideoTemp(title, ext))] + [Event.Fetch(audio.url, AudioName(title, audio))] + [Combine(VideoTemp(title, ext), AudioName(title, audio), name, CodecFor(ext).value.0, CodecFor(ext).value.1)]
  {
    var w1 := w.(tempVideo := Some(VideoTemp(title, ext)), tempAudio := Some(AudioName(title, audio)));
    var v := StreamDownload(net, video.url, VideoTemp(title, ext), w1);
    var before := w.events + [Event.Fetch(video.url, VideoTemp(title, ext))];
    AfterVideoEvents(net, title, ext, name, audio, v, before);
  }

  /** For an unknown container both parts are fetched, in order, and the combiner is not launched. */
  lemma DualTrackUnsupported(net: Network, title: string, ext: string, name: string, video: Stream, audio: Stream, w: Proc)
    ensures var r := DualTrack(net, title, ext, name, video, audio, w);
      r.1.Unsupported? ==> CodecFor(ext).None? && r.0.events == w.events + [Event.Fetch(video.url, VideoTemp(title, ext))] + [Event.Fetch(audio.url, AudioName(title, audio))]
  {
    var w1 := w.(tempVideo := Some(VideoTemp(title, ext)), tempAudio := Some(AudioName(title, audio)));
    var v := StreamDownload(net, video.url, VideoTemp(title, ext), w1);
    var before := w.events + [Event.Fetch(video.url, VideoTemp(title, ext))];
    AfterVideoEvents(net, title, ext, name, audio, v, before);
  }

  /** A MIME type without '/' ends the call before anything else happens; any other gets past that point. */
  lemma MalformedMimeFirst(net: Network, title: string, selected: Stream, bestAudio: Option<Stream>, w: Proc)
    ensures '/' !in selected.mimeType ==> VideoSession(net, title, selected, bestAudio, w) == (w, MalformedMime)
    ensures '/' in selected.mimeType ==> VideoSession(net, title, selected, bestAudio, w).1 != MalformedMime
  {
    SplitSeparates(selected.mimeType, '/');
  }

  /**
   * The output name is settled before anything is fetched: when the
   * confirmation declines or meets the end of input, only input lines were
   * consumed.
   */
  lemma ConfirmBeforeFetching(net: Network, title: string, selected: Stream, bestAudio: Option<Stream>, w: Proc)
    requires '/' in selected.mimeType
    ensures var ext := Split(selected.mimeType, '/')[1];
      var c := Confirm(w, title + "." + ext);
      var r := VideoSession(net, title, selected, bestAudio, w);
      (c.1 == Decline ==> r == (c.0, Declined)) && (c.1 == NoInput ==> r == (c.0, Failed(EndOfInput)))
  {
    SplitSeparates(selected.mimeType, '/');
  }

  /**
   * A stream with its own audio track is fetched under the confirmed name
   * and nothing else happens: the best audio stream is not consulted, no
   * temporary path is recorded and the combiner is not launched.
   */
  lemma IntegratedShortCircuit(net: Network, title: string, selected: Stream, bestAudio: Option<Stream>, w: Proc)
    requires '/' in selected.mimeType && selected.includesAudio
    ensures VideoSession(net, title, selected, bestAudio, w) == VideoSession(net, title, selected, None, w)
    ensures var ext := Split(selected.mimeType, '/')[1];
      var c := Confirm(w, title + "." + ext);
      var r := VideoSession(net, title, selected, bestAudio, w);
      c.1.Use? ==> r.0.events == w.events + [Event.Fetch(selected.url, c.1.name)] && r.0.tempVideo == w.tempVideo && r.0.tempAudio == w.tempAudio
  {
    SplitSeparates(selected.mimeType, '/');
  }

  /** Without a separate audio stream nothing is fetched or written: only the confirmation's input is consumed. */
  lemma NoAudioNoFetch(net: Network, title: string, selected: Stream, w: Proc)
    requires '/' in selected.mimeType && !selected.includesAudio
    ensures var r := VideoSession(net, title, selected, None, w);
      r.0 == w.(stdin := r.0.stdin) && (r.1 == NoAudioStream || r.1 == Declined || r.1 == Failed(EndOfInput))
  {
    SplitSeparates(selected.mimeType, '/');
  }
}
