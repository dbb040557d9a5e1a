/**
 * The state of the running downloader that outlives a single call:
 * the files in the output folder, the module-level globals
 * (`progress_bar`, `start_time`, `video_path`, `audio_path`), the
 * lines still to be typed at the prompts, and ghost traces of what was
 * sent, slept and launched.
 */
module Process {
  import opened Wrappers

  newtype byte = x: int | 0 <= x < 256

  /** One HTTP GET: the URL and the value of its `Range` header. */
  datatype Request = Request(url: string, range: string)

  /** What the orchestration launched: a stream download or the external combiner. */
  datatype Event =
    | Fetch(url: string, name: string)
    | Combine(video: string, audio: string, output: string, videoCodec: string, audioCodec: string)

  datatype Proc = Proc(
    files: map<string, seq<byte>>,   // the output folder: file name to bytes
    barCreated: bool,                // whether the global `progress_bar` has ever been bound
    startTime: real,                 // the global `start_time`
    sent: nat,                       // requests issued so far in this process
    stdin: seq<string>,              // lines the user will still type
    tempVideo: Option<string>,       // the global `video_path`, once assigned
    tempAudio: Option<string>,       // the global `audio_path`, once assigned
    sleeps: seq<real>,               // every `time.sleep` argument, in order
    requests: seq<Request>,          // every request sent, in order
    events: seq<Event>)              // every download and combine launched, in order

  /** The bytes of `name`, or none when the file does not exist. */
  function Contents(files: map<string, seq<byte>>, name: string): seq<byte> {
    if name in files then files[name] else []
  }

  /** `b` ends with `a`. */
  predicate IsSuffix<T(==)>(a: seq<T>, b: seq<T>) {
    |a| <= |b| && a == b[|b| - |a|..]
  }

  /**
   * `r` is a later state of `w` in which only `name` was written to, and
   * only by appending: every other file, the globals for the temporary
   * paths and the launch trace are as they were, and every trace has
   * only grown.
   */
  ghost predicate Extends(w: Proc, r: Proc, name: string) {
    && r.files - {name} == w.files - {name}
    && (name in w.files ==> name in r.files)
    && Contents(w.files, name) <= Contents(r.files, name)
    && (w.barCreated ==> r.barCreated)
    && w.sent <= r.sent
    && w.requests <= r.requests
    && |r.requests| - |w.requests| == r.sent - w.sent
    && w.sleeps <= r.sleeps
    && IsSuffix(r.stdin, w.stdin)
    && r.events == w.events
    && r.tempVideo == w.tempVideo
    && r.tempAudio == w.tempAudio
  }

  /** Reading one line of input only shortens what is left to type. */
  lemma ConsumeExtends(w: Proc, name: string)
    requires w.stdin != []
    ensures Extends(w, w.(stdin := w.stdin[1..]), name)
  {
    assert w.stdin[1..] == w.stdin[|w.stdin| - |w.stdin[1..]|..];
  }

  lemma ExtendsTrans(a: Proc, b: Proc, c: Proc, name: string)
    requires Extends(a, b, name) && Extends(b, c, name)
    ensures Extends(a, c, name)
  {
    assert c.stdin == a.stdin[|a.stdin| - |c.stdin|..] by {
      assert b.stdin[|b.stdin| - |c.stdin|..] == a.stdin[|a.stdin| - |b.stdin|..][|b.stdin| - |c.stdin|..];
    }
  }
}
