/**
 * The download handler of main.py (`download_video`): look the stream up by
 * its itag, answer 404 when there is none, build the download filename, make
 * the video's storage directory, have the collaborator write the file, and on
 * success serve it and schedule its deletion; a failed write becomes a 500.
 */
module Download {

  import opened Wrappers
  import opened Sanitizer
  import opened Storage

  /** The attributes the handler reads from one stream of the collaborator. */
  datatype Stream = Stream(
    itag: int,
    title: string,
    streamType: string,
    resolution: Option<string>,
    abr: Option<string>,
    subtype: string)

  /**
   * What the collaborator's `stream.download(...)` call does: it writes the
   * file, or it raises with a message, possibly after writing part of the
   * file at the target path.
   */
  datatype DownloadOutcome = Completed | Raised(message: string, wrotePartial: bool)

  /** The handler's answer: the file served as an attachment, or an HTTP error with its detail. */
  datatype Response =
    | FileResponse(path: string, mediaType: string, filename: string)
    | HttpError(statusCode: int, detail: string)

  /** A background task: `os.remove(path)`. */
  datatype Task = RemoveFile(path: string)

  /** `streams.get_by_itag(itag)`: a stream of the video with that itag, or `None` when there is none. */
  function FindByItag(streams: seq<Stream>, itag: int): (r: Option<Stream>)
    ensures r.None? <==> forall i | 0 <= i < |streams| :: streams[i].itag != itag
    ensures r.Some? ==> r.value in streams && r.value.itag == itag
  {
    if streams == [] then None
    else if streams[0].itag == itag then Some(streams[0])
    else FindByItag(streams[1..], itag)
  }

  /** How an f-string renders an optional attribute: Python's `None` prints as "None". */
  function Format(o: Option<string>): string
  {
    match o
    case None => "None"
    case Some(s) => s
  }

  /** The resolution of a video stream, the audio bitrate of any other. */
  function Quality(s: Stream): string
  {
    if s.streamType == "video" then Format(s.resolution) else Format(s.abr)
  }

  /** The container subtype of a video stream; "mp3" for any other. */
  function Extension(s: Stream): string
  {
    if s.streamType == "video" then s.subtype else "mp3"
  }

  /**
   * `sanitize_filename(f"{title}-{resolution}.{extension}")`. The name is
   * never empty and is a single path component: the '-' and '.' the format
   * puts in survive sanitising, and no separator does.
   */
  function DownloadFilename(s: Stream): (name: string)
    ensures Clean(name) && Trimmed(name)
    ensures '-' in name && '.' in name
    ensures '/' !in name
  {
    var raw := s.title + "-" + Quality(s) + "." + Extension(s);
    assert '-' in raw && '.' in raw by {
      assert raw[|s.title|] == '-';
      assert raw[|s.title| + 1 + |Quality(s)|] == '.';
    }
    SanitizeKeepsOrdinaryChars(raw, '-');
    SanitizeKeepsOrdinaryChars(raw, '.');
    SanitizeFilename(raw)
  }

  /**
   * When the extension has no forbidden characters and does not end in
   * whitespace, the filename ends in "." followed by the extension, and what
   * precedes it is the sanitised title and quality.
   */
  lemma FilenameEndsWithExtension(s: Stream)
    requires Clean(Extension(s))
    requires Extension(s) == [] || !IsSpace(Extension(s)[|Extension(s)| - 1])
    ensures DownloadFilename(s) ==
      TrimStart(RemoveForbidden(s.title + "-" + Quality(s))) + "." + Extension(s)
  {
    var head := s.title + "-" + Quality(s);
    var tail := "." + Extension(s);
    assert Clean(tail) by {
      forall i | 0 <= i < |tail| ensures !IsForbidden(tail[i]) {
        if i > 0 {
          assert tail[i] == Extension(s)[i - 1];
        }
      }
    }
    assert Trimmed(tail);
    assert head + tail == s.title + "-" + Quality(s) + "." + Extension(s);
    SanitizeKeepsCleanSuffix(head, tail);
  }

  /** An audio stream is always saved under a name ending in ".mp3", after its sanitised title and bitrate. */
  lemma AudioFilenameEndsWithMp3(s: Stream)
    requires s.streamType != "video"
    ensures DownloadFilename(s) == TrimStart(RemoveForbidden(s.title + "-" + Format(s.abr))) + ".mp3"
  {
    var mp3: string := "mp3";
    assert Extension(s) == mp3;
    assert Clean(mp3) by {
      assert forall i | 0 <= i < 3 :: mp3[i] == 'm' || mp3[i] == 'p' || mp3[i] == '3';
    }
    assert !IsSpace(mp3[2]);
    assert "." + mp3 == ".mp3";
    FilenameEndsWithExtension(s);
  }

  /** `full_path`: where the stream is downloaded to, inside the video's storage directory. */
  function FullPath(videoId: string, s: Stream): string
  {
    PathJoin(YoutubeStorageDirPath(videoId), DownloadFilename(s))
  }

  /** The response `download_video` gives for a stream list and a download outcome. */
  function Respond(videoId: string, itag: int, streams: seq<Stream>, outcome: DownloadOutcome): Response
  {
    match FindByItag(streams, itag)
    case None => HttpError(404, "Stream not found")
    case Some(s) =>
      match outcome
      case Completed =>
        FileResponse(FullPath(videoId, s), "application/octet-stream", DownloadFilename(s))
      case Raised(message, _) => HttpError(500, "Error occurred: " + message)
  }

  /** The files the handler's download call leaves at `full_path`: a completed file, or the part a failed call wrote. */
  function Written(videoId: string, itag: int, streams: seq<Stream>, outcome: DownloadOutcome): set<string>
  {
    match FindByItag(streams, itag)
    case None => {}
    case Some(s) =>
      if outcome.Completed? || outcome.wrotePartial then {FullPath(videoId, s)} else {}
  }

  /**
   * A served file is exactly what was written. A failure leaves behind the
   * part it wrote, which no task removes; only a refused request or a failure
   * that wrote nothing leaves no file.
   */
  lemma WrittenFiles(videoId: string, itag: int, streams: seq<Stream>, outcome: DownloadOutcome)
    ensures var r := Respond(videoId, itag, streams, outcome);
      r.FileResponse? ==> Written(videoId, itag, streams, outcome) == {r.path}
    ensures var r := Respond(videoId, itag, streams, outcome);
      r.HttpError? && Written(videoId, itag, streams, outcome) != {} <==>
        (exists i | 0 <= i < |streams| :: streams[i].itag == itag) && outcome.Raised? && outcome.wrotePartial
    ensures Written(videoId, itag, streams, outcome) == {} <==>
      (forall i | 0 <= i < |streams| :: streams[i].itag != itag) || (outcome.Raised? && !outcome.wrotePartial)
  {
    var found := FindByItag(streams, itag);
    if found.Some? {
      var i :| 0 <= i < |streams| && streams[i] == found.value;
      assert streams[i].itag == itag;
    }
  }

  /** The handler answers 404 "Stream not found" exactly when no stream of the video has the itag. */
  lemma NotFoundIff(videoId: string, itag: int, streams: seq<Stream>, outcome: DownloadOutcome)
    ensures Respond(videoId, itag, streams, outcome) == HttpError(404, "Stream not found")
      <==> forall i | 0 <= i < |streams| :: streams[i].itag != itag
  {
  }

  /**
   * A served file is the collaborator's completed download of a stream with
   * the requested itag, stored as `storage/youtube/<video_id>/<filename>`
   * under the sanitised filename it is offered as.
   */
  lemma ServedFileLayout(videoId: string, itag: int, streams: seq<Stream>, outcome: DownloadOutcome)
    requires videoId != [] && '/' !in videoId
    requires Respond(videoId, itag, streams, outcome).FileResponse?
    ensures outcome == Completed
    ensures var r := Respond(videoId, itag, streams, outcome);
      exists i | 0 <= i < |streams| :: streams[i].itag == itag && r.filename == DownloadFilename(streams[i])
    ensures var r := Respond(videoId, itag, streams, outcome);
      r.path == "storage/youtube/" + videoId + "/" + r.filename &&
      r.mediaType == "application/octet-stream"
  {
    var r := Respond(videoId, itag, streams, outcome);
    var s := FindByItag(streams, itag).value;
    var i :| 0 <= i < |streams| && streams[i] == s;
    assert streams[i].itag == itag && r.filename == DownloadFilename(streams[i]);
    var name := DownloadFilename(s);
    assert name[0] != '/' by { assert name[0] in name; }
    var dir := YoutubeStorageDirPath(videoId);
    StorageLayout(videoId);
    assert dir[|dir| - 1] != '/' by {
      assert dir[|dir| - 1] == videoId[|videoId| - 1];
      assert videoId[|videoId| - 1] in videoId;
    }
    assert r.path == PathJoin(dir, name) == dir + "/" + name;
  }

  /** A failed download, for a stream that exists, is a 500 carrying the collaborator's message. */
  lemma FailureIsServerError(videoId: string, itag: int, streams: seq<Stream>, message: string)
    requires exists i | 0 <= i < |streams| :: streams[i].itag == itag
    ensures forall partial: bool ::
      Respond(videoId, itag, streams, Raised(message, partial)) == HttpError(500, "Error occurred: " + message)
  {
  }

  /** The request's `background_tasks` list. */
  class BackgroundTasks {
    var tasks: seq<Task>

    constructor ()
      ensures tasks == []
    {
      tasks := [];
    }

    /** `background_tasks.add_task(...)`: queued after the tasks already there. */
    method AddTask(task: Task)
      modifies this
      ensures tasks == old(tasks) + [task]
    {
      tasks := tasks + [task];
    }

    /**
     * What runs once the response has been sent: the tasks in order, each
     * `os.remove`; a file that is already gone raises, and the tasks after it
     * do not run.
     */
    method Run(fs: FileSystem)
      modifies fs
      ensures fs.files == AfterTasks(old(fs.files), tasks)
      ensures fs.dirs == old(fs.dirs)
    {
      fs.files := AfterTasks(fs.files, tasks);
    }
  }

  /** The paths the tasks remove. */
  function TaskPaths(tasks: seq<Task>): set<string>
  {
    set t | t in tasks :: t.path
  }

  /** No two tasks remove the same path. */
  predicate DistinctPaths(tasks: seq<Task>)
  {
    forall i, j | 0 <= i < j < |tasks| :: tasks[i].path != tasks[j].path
  }

  lemma TaskPathsSplit(tasks: seq<Task>)
    requires tasks != []
    ensures TaskPaths(tasks) == {tasks[0].path} + TaskPaths(tasks[1..])
    ensures DistinctPaths(tasks) ==> DistinctPaths(tasks[1..]) && tasks[0].path !in TaskPaths(tasks[1..])
  {
    assert forall t | t in tasks :: t == tasks[0] || t in tasks[1..];
    if DistinctPaths(tasks) {
      forall t | t in tasks[1..] ensures t.path != tasks[0].path {
        var j :| 0 <= j < |tasks[1..]| && tasks[1..][j] == t;
        assert tasks[j + 1] == t;
      }
    }
  }

  /**
   * The files left once `tasks` have run, from first to last, over `files`.
   * When the tasks remove distinct files that all exist, every one of them
   * is gone and nothing else is.
   */
  function AfterTasks(files: set<string>, tasks: seq<Task>): (r: set<string>)
    ensures r <= files
    ensures DistinctPaths(tasks) && TaskPaths(tasks) <= files ==> r == files - TaskPaths(tasks)
  {
    if tasks == [] then files
    else if tasks[0].path in files then
      TaskPathsSplit(tasks);
      AfterTasks(files - {tasks[0].path}, tasks[1..])
    else files
  }

  /**
   * `GET /api/download/{video_id}/{itag}`. The bounds on `video_id` and
   * `itag` are the route's parameter validation. Without a matching stream
   * nothing is touched; otherwise the storage directory is made and the
   * download call writes what `Written` says, and a deletion is queued
   * exactly when the file is served: never for a failed call.
   */
  method DownloadVideo(videoId: string, itag: int, streams: seq<Stream>, outcome: DownloadOutcome,
                       fs: FileSystem, backgroundTasks: BackgroundTasks)
    returns (resp: Response)
    requires 1 <= |videoId| <= 100 && itag >= 1
    modifies fs, backgroundTasks
    ensures resp == Respond(videoId, itag, streams, outcome)
    ensures FindByItag(streams, itag).None? ==> unchanged(fs) && unchanged(backgroundTasks)
    ensures FindByItag(streams, itag).Some? ==>
      fs.dirs == old(fs.dirs) + Ancestors(YoutubeStorageDirPath(videoId))
    ensures fs.files == old(fs.files) + Written(videoId, itag, streams, outcome)
    ensures backgroundTasks.tasks ==
      old(backgroundTasks.tasks) + (if resp.FileResponse? then [RemoveFile(resp.path)] else [])
  {
    var stream := FindByItag(streams, itag);
    if stream.None? {
      return HttpError(404, "Stream not found");
    }
    var s := stream.value;

    var filename := DownloadFilename(s);
    var outputPath := YoutubeStorageDir(fs, videoId);
    var fullPath := PathJoin(outputPath, filename);

    match outcome
    case Completed =>
      fs.WriteFile(fullPath);
      backgroundTasks.AddTask(RemoveFile(fullPath));
      resp := FileResponse(fullPath, "application/octet-stream", filename);
    case Raised(message, wrotePartial) =>
      if wrotePartial {
        fs.WriteFile(fullPath);
      }
      resp := HttpError(500, "Error occurred: " + message);
  }

  /**
   * One whole request, taken on its own: the handler with the request's own,
   * empty task list, then its tasks once the response is out. A served file is
   * deleted; a failed download's partial file stays, since the handler queues
   * no deletion for it; the storage directory stays whenever the stream exists.
   */
  method HandleDownloadRequest(videoId: string, itag: int, streams: seq<Stream>, outcome: DownloadOutcome,
                               fs: FileSystem)
    returns (resp: Response)
    requires 1 <= |videoId| <= 100 && itag >= 1
    modifies fs
    ensures resp == Respond(videoId, itag, streams, outcome)
    ensures resp.FileResponse? ==> fs.files == old(fs.files) - {resp.path}
    ensures resp.HttpError? ==> fs.files == old(fs.files) + Written(videoId, itag, streams, outcome)
    ensures fs.dirs == old(fs.dirs) +
      (if FindByItag(streams, itag).Some? then Ancestors(YoutubeStorageDirPath(videoId)) else {})
  {
    var backgroundTasks := new BackgroundTasks();
    resp := DownloadVideo(videoId, itag, streams, outcome, fs, backgroundTasks);
    backgroundTasks.Run(fs);
  }
}
