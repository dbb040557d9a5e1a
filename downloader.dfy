/**
 * The program's mutable state as one object: the output folder, the
 * module-level globals and the remaining input lines are fields, and the
 * functions of the program are methods that update them in place. Each
 * method is proved to leave the object in the state, and to end with the
 * outcome, that the corresponding function of `Retry` or `Session`
 * computes from the state it started in.
 */
module Program {
  import opened Wrappers
  import opened Text
  import opened HttpRange
  import opened Process
  import opened Retry
  import opened Naming
  import opened Catalog
  import opened Session

  class Downloader {
    /** What the `n`-th request of this process meets. */
    const net: Network

    var files: map<string, seq<byte>>
    var barCreated: bool
    var startTime: real
    var sent: nat
    var stdin: seq<string>
    var tempVideo: Option<string>
    var tempAudio: Option<string>
    ghost var sleeps: seq<real>
    ghost var requests: seq<Request>
    ghost var events: seq<Event>

    ghost function State(): Proc
      reads this
    {
      Proc(files, barCreated, startTime, sent, stdin, tempVideo, tempAudio, sleeps, requests, events)
    }

    /** A fresh process: no progress bar, no temporary paths, nothing sent yet. */
    constructor (net: Network, files: map<string, seq<byte>>, stdin: seq<string>)
      ensures this.net == net
      ensures State() == Proc(files, false, 0.0, 0, stdin, None, None, [], [], [])
    {
      this.net := net;
      this.files := files;
      barCreated := false;
      startTime := 0.0;
      sent := 0;
      this.stdin := stdin;
      tempVideo := None;
      tempAudio := None;
      sleeps := [];
      requests := [];
      events := [];
    }

    /** Start an attempt: note the time, read the file's size and send the resuming request. */
    method Send(url: string, name: string) returns (reply: Reply, size: nat)
      modifies this
      ensures State() == Begin(net, url, name, old(State()))
      ensures reply == net(old(sent)).reply && size == |Contents(old(files), name)|
    {
      startTime := net(sent).start;
      size := 0;
      if name in files {
        size := |files[name]|;
      }
      reply := net(sent).reply;
      requests := requests + [Request(url, RangeHeader(size))];
      sent := sent + 1;
    }

    /** Create the progress bar, open the file for appending and write each non-empty chunk. */
    method Receive(name: string, chunks: seq<seq<byte>>)
      modifies this
      ensures State() == Append(old(State()), name, chunks)
    {
      barCreated := true;
      var data: seq<byte> := if name in files then files[name] else [];
      for i := 0 to |chunks|
        invariant data == Contents(old(files), name) + Flatten(chunks[..i])
      {
        assert chunks[..i + 1][..i] == chunks[..i];
        assert Flatten(chunks[..i + 1]) == Flatten(chunks[..i]) + chunks[i];
        if |chunks[i]| > 0 {
          data := data + chunks[i];
        } else {
          assert chunks[i] == [];
          assert data + chunks[i] == data;
        }
      }
      assert chunks[..|chunks|] == chunks;
      files := files[name := data];
    }

    /**
     * The exception handlers: `None` when closing the progress bar raises
     * NameError, else the counters for the next pass.
     */
    method Recover(p: Params, c: Counters, f: Fault) returns (next: Option<Counters>)
      modifies this
      ensures next.None? ==> AfterFault(p, old(State()), c, f) == Stop(old(State()), NameError) && State() == old(State())
      ensures next.Some? ==> AfterFault(p, old(State()), c, f) == Again(State(), next.value)
    {
      if !barCreated {
        return None;
      }
      var attempt := c.attempt;
      var waitTime := c.waitTime;
      if f.Conn? {
        attempt := attempt + 1;
      }
      var totalAttempts := c.totalAttempts + 1;
      if totalAttempts < p.maxAttempts {
        sleeps := sleeps + [waitTime];
        if f.Conn? && f.now - startTime > p.resetInterval {
          attempt := 0;
          waitTime := ResetWait;
        }
      }
      return Some(Counters(attempt, totalAttempts, waitTime));
    }

    /** `download_with_retries`. */
    method DownloadWithRetries(url: string, name: string, p: Params) returns (o: Outcome)
      modifies this
      ensures (State(), o) == Download(net, p, url, name, old(State()))
      decreases |stdin|, 1
    {
      var c := Counters(0, 0, p.waitTime);
      while c.totalAttempts < p.maxAttempts
        invariant Attempts(net, p, url, name, State(), c) == Attempts(net, p, url, name, old(State()), Counters(0, 0, p.waitTime))
        invariant stdin == old(stdin)
        decreases p.maxAttempts - c.totalAttempts
      {
        ghost var before := State();
        var reply, size := Send(url, name);
        ghost var sentState := State();
        assert Step(net, p, url, name, before, c) == Handle(p, name, sentState, c, reply, size);
        var fault: Fault;
        match reply {
          case Raised(f) =>
            fault := f;
          case Response(status, contentRange, chunks, cut) =>
            if status == 416 {
              return AlreadyComplete;
            } else if status != 200 && status != 206 {
              return Rejected(status);
            }
            if TotalSize(contentRange, size).None? {
              fault := Other;
            } else {
              Receive(name, chunks);
              if cut.None? {
                return Completed;
              }
              fault := cut.value;
            }
        }
        var next := Recover(p, c, fault);
        if next.None? {
          return NameError;
        }
        c := next.value;
      }
      o := HandleDownloadFailure(url, name);
    }

    /** `handle_download_failure`. */
    method HandleDownloadFailure(url: string, name: string) returns (o: Outcome)
      modifies this
      ensures (State(), o) == Escalate(net, url, name, old(State()))
      decreases |stdin|, 0
    {
      while true
        invariant Escalate(net, url, name, State()) == Escalate(net, url, name, old(State()))
        invariant |stdin| <= |old(stdin)|
        decreases |stdin|
      {
        if stdin == [] {
          return EndOfInput;
        }
        var choice := AnswerOf(stdin[0]);
        stdin := stdin[1..];
        if choice == Yes {
          o := DownloadWithRetries(url, name, Defaults);
          return;
        } else if choice == No {
          return Cancelled;
        }
      }
    }

    /** `download_with_progress`: record the launch, then download the stream's URL with the defaults. */
    method DownloadWithProgress(stream: Stream, name: string) returns (o: Outcome)
      modifies this
      ensures (State(), o) == StreamDownload(net, stream.url, name, old(State()))
    {
      events := events + [Event.Fetch(stream.url, name)];
      o := DownloadWithRetries(stream.url, name, Defaults);
    }

    /** `confirm_download_choice`. */
    method ConfirmDownloadChoice(name: string) returns (c: Confirmation)
      modifies this
      ensures (State(), c) == Confirm(old(State()), name)
    {
      if name !in files {
        return Use(name);
      }
      while true
        invariant AskOverwrite(State(), name) == AskOverwrite(old(State()), name)
        decreases |stdin|
      {
        if stdin == [] {
          return NoInput;
        }
        var choice := AnswerOf(stdin[0]);
        stdin := stdin[1..];
        if choice == Yes {
          var unique := GetUniqueFilename(files.Keys, name);
          return Use(unique);
        } else if choice == No {
          return Decline;
        }
      }
    }

    /** `download_video`; `bestAudio` is the catalog's best audio stream, if any. */
    method DownloadVideo(title: string, selected: Stream, bestAudio: Option<Stream>) returns (e: Ending)
      modifies this
      ensures (State(), e) == VideoSession(net, title, selected, bestAudio, old(State()))
    {
      var parts := Split(selected.mimeType, '/');
      if |parts| < 2 {
        return MalformedMime;
      }
      var ext := parts[1];
      var choice := ConfirmDownloadChoice(title + "." + ext);
      if choice == NoInput {
        return Failed(EndOfInput);
      } else if choice == Decline {
        return Declined;
      }
      var name := choice.name;
      if selected.includesAudio {
        var o := DownloadWithProgress(selected, name);
        return if Raises(o) then EndingOf(o) else VideoWithAudio;
      }
      if bestAudio.None? {
        return NoAudioStream;
      }
      e := DownloadSeparately(title, ext, name, selected, bestAudio.value);
    }

    /** The separate-audio part of `download_video`: temporary paths, then the video. */
    method DownloadSeparately(title: string, ext: string, name: string, video: Stream, audio: Stream) returns (e: Ending)
      modifies this
      ensures (State(), e) == DualTrack(net, title, ext, name, video, audio, old(State()))
    {
      var videoTemp := VideoTemp(title, ext);
      tempVideo := Some(videoTemp);
      tempAudio := Some(AudioName(title, audio));
      ghost var w1 := old(State()).(tempVideo := Some(videoTemp), tempAudio := Some(AudioName(title, audio)));
      assert State() == w1;
      var o := DownloadWithProgress(video, videoTemp);
      ghost var v := (State(), o);
      assert v == StreamDownload(net, video.url, videoTemp, w1);
      e := AudioAfterVideo(title, ext, name, audio, o);
    }

    /** Once the video download returned with `o`: the audio, unless `o` was an exception. */
    method AudioAfterVideo(title: string, ext: string, name: string, audio: Stream, o: Outcome) returns (e: Ending)
      modifies this
      ensures (State(), e) == AfterVideo(net, title, ext, name, audio, (old(State()), o))
    {
      if Raises(o) {
        return EndingOf(o);
      }
      var o2 := DownloadWithProgress(audio, AudioName(title, audio));
      e := CombineAfterAudio(title, ext, name, audio, o2);
    }

    /** Once the audio download returned with `o`: the codec lookup and the combiner, unless `o` was an exception. */
    method CombineAfterAudio(title: string, ext: string, name: string, audio: Stream, o: Outcome) returns (e: Ending)
      modifies this
      ensures (State(), e) == AfterAudio(title, ext, name, audio, (old(State()), o))
    {
      if Raises(o) {
        return EndingOf(o);
      }
      var codecs := CodecFor(ext);
      if codecs.None? {
        return Unsupported(ext);
      }
      events := events + [Combine(VideoTemp(title, ext), AudioName(title, audio), name, codecs.value.0, codecs.value.1)];
      return Combined;
    }
  }
}
