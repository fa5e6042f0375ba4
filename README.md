# EzGrab core in Dafny

EzGrab is a small HTTP API in front of a video platform. It searches for videos, describes them, and downloads one chosen stream to the caller. Almost all of the work is done by an external retrieval library. This project models the logic that belongs to the repository itself:

- **Filename sanitiser** (`sanitizer.dfy`, module `Sanitizer`). It deletes the nine characters `< > : " / \ | ? *`, then strips surrounding whitespace as Python's `str.strip()` does. Whitespace is Python's `str.isspace()` set, written out code point by code point. `strip()` is computed as CPython computes it: count the leading and trailing whitespace, then take one slice.
- **Search pagination** (`pagination.dfy`, module `Pagination`). This covers the offset `(page-1)*page_size`, the window slice with Python's clamping slice semantics, and `total_pages = (n + page_size - 1) // page_size`.
- **Search handler** (`search.dfy`, module `Search`). The collaborator's search is a function from the query to an ordered list of videos. The handler pages that list and builds the `results` list in a loop, as `main.py` does.
- **Storage directory** (`storage.dfy`, module `Storage`). This covers POSIX `os.path.join`, the per-video directory `storage/youtube/<video_id>`, and `os.makedirs(..., exist_ok=True)`. The filesystem is a `FileSystem` object holding the sets of existing directories and files.
- **Download handler** (`download.dfy`, module `Download`). It looks the stream up by itag and answers 404 when there is none. Otherwise it builds the sanitised filename, makes the storage directory and lets the collaborator write the file. A write that raises gives a 500 with the message. A write that raises may leave part of the file behind. A completed write is served, and its deletion is queued on the request's `BackgroundTasks` list. `HandleDownloadRequest` runs one request and then its queued tasks. It proves that a served file is removed afterwards, and that a failed download's partial file and the storage directory stay behind.

The collaborator is modelled only by what it returns: a list of videos for a query, a list of stream records for a video, and a download outcome (`Completed`, or `Raised(message, wrotePartial)` when the call raises, possibly after writing part of the file).

## Model

| member | source | states |
|---|---|---|
| `Sanitizer.RemoveForbidden` | utils/sanitize_filename.py:4 | The regex substitution leaves no forbidden character and never lengthens the string. |
| `Sanitizer.RemoveForbiddenMembers` | utils/sanitize_filename.py:4 | A character survives the substitution exactly when it occurs in the input and is not one of the nine forbidden characters. |
| `Sanitizer.LeadingSpaces` | utils/sanitize_filename.py:4 | `strip()`'s start index: every character before it is whitespace, and the character at it is not. |
| `Sanitizer.TrailingSpaces` | utils/sanitize_filename.py:4 | `strip()`'s end count: every character after the cut is whitespace, and the last one kept is not. |
| `Sanitizer.Strip` | utils/sanitize_filename.py:4 | `str.strip()` leaves no whitespace at either end and never lengthens the string. |
| `Sanitizer.StripIsWindow` | utils/sanitize_filename.py:4 | The stripped string is one contiguous window of the input, with only whitespace outside it, so inner whitespace is kept. |
| `Sanitizer.SanitizeFilename` | utils/sanitize_filename.py:3-4 | The result has none of `< > : " / \ | ? *`, no leading or trailing whitespace, and is no longer than the input. |
| `Sanitizer.SanitizeIdempotent` | utils/sanitize_filename.py:3-4 | Sanitising a sanitised name returns it unchanged. |
| `Sanitizer.SanitizeFixesCleanNames` | utils/sanitize_filename.py:3-4 | A name with no forbidden character and no surrounding whitespace is returned unchanged. |
| `Sanitizer.SanitizeIsSubsequence` | utils/sanitize_filename.py:3-4 | The result is a subsequence of the input: characters are only deleted, never inserted or reordered. |
| `Sanitizer.SanitizeKeepsOrdinaryChars` | utils/sanitize_filename.py:3-4 | Every character that is neither forbidden nor whitespace survives sanitising. |
| `Sanitizer.RemovalBeforeStrip` | utils/sanitize_filename.py:4 | Deletion happens before stripping, so `"? a"` becomes `"a"`: whitespace exposed by a deleted character is stripped too. |
| `Sanitizer.StripBeforeRemoval` | utils/sanitize_filename.py:4 | With the opposite order, `"? a"` would become `" a"`, so the order matters. |
| `Sanitizer.InteriorSpaceKept` | utils/sanitize_filename.py:4 | Inner whitespace is kept: `"a b"` is unchanged. |
| `Sanitizer.SanitizeKeepsCleanSuffix` | utils/sanitize_filename.py:3-4 | A non-empty suffix with no forbidden character and no surrounding whitespace ends the result unchanged; only the left end of the rest is stripped. |
| `Pagination.ClampIndex` | main.py:34 | How Python normalises one slice bound: a non-negative bound is clamped to the length, a negative one counts from the end, and one before the start becomes 0. |
| `Pagination.PySlice` | main.py:34 | Python slicing never fails. For `0 <= start <= stop` it is the window between the two bounds, each clamped to the length; for `0 <= stop <= start` it is empty. |
| `Pagination.Paginate` | main.py:32-34 | The page is the contiguous, in-order run of the results starting at `(page-1)*page_size`. It has at most `page_size` items, it is empty when the offset is past the end, and otherwise it holds `min(page_size, n - offset)` items. |
| `Pagination.TotalPages` | main.py:53 | `(n + page_size - 1) // page_size` is the ceiling of `n / page_size`: `(t-1)*page_size < n <= t*page_size`, and it is 0 when `n` is 0. |
| `Pagination.TotalPagesIsCeiling` | main.py:53 | No other page count satisfies those bounds, in both directions. |
| `Pagination.PageNonEmptyIff` | main.py:32-53 | A page holds results exactly when `page <= total_pages`; later pages are empty lists, not errors. |
| `Pagination.PageIsSlice` | main.py:32-34 | Page `k` is the slice between the clamped ends of pages `k-1` and `k`. |
| `Pagination.PagesArePrefix` | main.py:32-34 | Pages 1 to `k` in order are the first `min(k*page_size, n)` results. |
| `Pagination.PagesCoverResults` | main.py:32-53 | Pages 1 to `total_pages` in order are exactly the whole result list, with no gap and no repeat. |
| `Search.SearchVideoOnYoutube` | main.py:20-55 | The response echoes `page` and `page_size`. `total_results` is the full candidate count and `total_pages` its ceiling page count, whatever page was asked for. `results` summarises exactly the requested page's candidates, in order. |
| `Search.SecondPageOfTwelve` | main.py:32-53 | With 12 candidates, page 2 of size 5: 3 pages, and the page is candidates 5 to 9. |
| `Storage.StorageLayout` | utils/storage_dir.py:5-7 | For a one-segment video id, the directory is `storage/youtube/<video_id>`, and making it creates exactly `storage`, `storage/youtube` and itself. |
| `Storage.FileSystem.MakeDirs` | utils/storage_dir.py:6 | `os.makedirs(path, exist_ok=True)` adds the path and its ancestors, fails on none that already exist, and touches no file. |
| `Storage.YoutubeStorageDir` | utils/storage_dir.py:5-7 | It returns the video's directory path, and that directory then exists. |
| `Storage.YoutubeStorageDirTwice` | utils/storage_dir.py:5-7 | Resolving the same video twice gives the same path and creates nothing beyond what one call creates. |
| `Download.FindByItag` | main.py:86 | The lookup finds nothing exactly when no stream has the itag; what it finds is one of the video's streams, with that itag. |
| `Download.DownloadFilename` | main.py:91-96 | The filename has no forbidden character and no surrounding whitespace. It keeps the `-` and `.` of the format, so it is never empty and is a single path component. |
| `Download.FilenameEndsWithExtension` | main.py:91-96 | For a clean extension, the filename is the left-stripped, cleaned `title-quality` followed by `.` and the extension. Quality is the resolution for `type == "video"` and `abr` otherwise; the extension is the subtype for video and `mp3` otherwise. |
| `Download.AudioFilenameEndsWithMp3` | main.py:92-96 | A stream whose type is not `"video"` is saved as the cleaned `title-abr` followed by `.mp3`. |
| `Download.WrittenFiles` | main.py:96-115 | A served file is exactly the file written. A failure leaves a file behind exactly when the stream exists and the call wrote part of it. Nothing is written exactly when no stream matches or the failed call wrote nothing. |
| `Download.NotFoundIff` | main.py:86-89 | The answer is 404 "Stream not found" exactly when no stream of the video has the itag. |
| `Download.ServedFileLayout` | main.py:91-112 | A served file comes from a completed download of a stream with the requested itag. Its path is `storage/youtube/<video_id>/<filename>` and it is offered as `application/octet-stream` under that same filename. |
| `Download.FailureIsServerError` | main.py:100-115 | A download that raises, for a stream that exists, is answered 500 with detail `"Error occurred: " + message`, whether or not it wrote part of the file. |
| `Download.BackgroundTasks.AddTask` | main.py:104 | A task is queued after the tasks already there. |
| `Download.AfterTasks` | main.py:104 | Running removal tasks only removes files. When the tasks remove distinct existing files, exactly those files are gone. |
| `Download.DownloadVideo` | main.py:78-115 | The response is the one `Respond` gives. Without a matching stream, neither the filesystem nor the task list changes, so no directory is made and no download happens. Otherwise the storage directory is made and the download call's files (`Written`) are added. Exactly one deletion of the served path is queued, exactly when the file is served; a failed call queues none. |
| `Download.HandleDownloadRequest` | main.py:78-115 | Over one request, including its background tasks, a served file is removed and no other file changes. A refused request changes nothing. A failed request keeps any partial file it wrote, because no deletion is queued for it. The storage directory and its parents stay whenever the stream exists. |

## Left out

- The collaborator's calls (`Search`, `YouTube`, `streams.get_by_itag`, `stream.download`) are not modelled. Their results are inputs: a function from query to videos, a list of stream records, and a download outcome.
- Download.FindByItag: takes the first stream with the itag; which stream the collaborator's own index returns for a repeated itag is not part of this model.
- Exceptions raised outside the handler's `try` are not modelled. This includes metadata retrieval, `os.makedirs` and reading the stream's attributes; the framework would turn them into its generic 500.
- A download that raises is modelled as leaving either nothing or one partial file at the target path (`wrotePartial`). Whether the collaborator cleans up, or writes to a temporary name, is not part of this model.
- `get_video_detail` is left out. It only copies library objects' attributes and filter results, with no logic of the repository's own.
- The HTTP layer is left out: routing, `Query`/`Path` validation, `HTTPException` plumbing, `FileResponse` byte streaming with its `Content-Disposition` header, and the CORS middleware. Parameter bounds are `requires` clauses, and responses are `Response` values.
- Download.HandleDownloadRequest: models one request at a time. Two overlapping requests for the same `video_id` and `itag` share one `full_path`. The first request's removal can then delete the file the second is about to serve, or make the second's removal raise. Its promise that the served file is removed and no other file changes holds only for requests that do not overlap.
- Download.HandleDownloadRequest: runs the queued tasks right after the handler returns. When they run relative to sending the response is asynchronous scheduling and is not modelled.
- Storage.PathJoin: covers two-argument POSIX joining only; paths are not normalised (`..`, repeated separators), and directory creation does not model a file standing where a directory should be.
- Python strings may hold lone surrogate code points. Dafny's `char` cannot, so such strings are outside the model.
- Search: the video attributes are typed as strings, integers and optional values; the collaborator's own attribute types are not part of this model.
- `load_dotenv`, the `uvicorn` entry point and the application setup are left out; they are configuration and process start-up.
