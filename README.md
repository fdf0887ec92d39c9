# QR-code capture loop, modelled in Dafny

This project models the capture loop of a webcam QR-code recorder. The loop reads frames from a
camera and runs OpenCV's QR detector on each one. When a code has a non-empty payload and a
bounding box, it draws the box on the frame. A payload that is new to this session has the
annotated frame saved as `captured_frames/YYYYMMDD_HHMMSS.jpg` (JPEG quality 60). It then gets an
`INSERT OR IGNORE` row in the SQLite table `qrcodes(data, first_seen)`, with `first_seen` written
as `YYYY-MM-DD HH:MM:SS`. The loop stops when a read fails or when `q` is pressed.

Files:

- `timestamp.dfy` (module `Timestamp`): the clock reading and its two renderings (`strftime`
  `"%Y-%m-%d %H:%M:%S"` for the table and `"%Y%m%d_%H%M%S"` plus `.jpg` for the file name),
  built from zero-padded decimal fields. It proves:
  - each field of both renderings is all digits and reads back as the clock's field;
  - the file name is the table timestamp with its separators removed;
  - two readings collide exactly when they fall in the same second.
- `overlay.dfy` (module `Overlay`): the frame as an object that lines are drawn on in place; the
  truncation of the detector's float corners to integer pixels; the `for` loop that joins corner
  `i` to corner `(i + 1) % n`; and the proof that this closes the polygon.
- `capture.dfy` (module `Capture`): the per-iteration outcome the camera, detector, clock and
  keyboard supply; the session state (`seen`, the `qrcodes` table as a map, the output
  directory as a map from path to picture, and the ordered log of writes); the spec functions
  `Step`, `Replay` and `Live`; the class `CaptureLoop`, whose `Iterate` and `Run` methods update
  that state in place and are proved against the spec functions; and the lemmas about whole
  runs.

Each loop iteration is one `Outcome`: `ReadFailed`, or `Captured(image, detection, now, key)`.
`detection` is `Raised` (the detector threw) or `Returned(data, bbox)`. The key is checked with
`key % 256 == ord('q')`. This matches Python's `waitKey(1) & 0xFF` for negative values too
(`-1` means no key pressed).

The model follows these details of the code:

- Rows go to the table `qrcodes`, keyed by the column `data`, with the time in `first_seen`.
- The detector's exception leads to `continue`, which also skips `imshow` and the key check. So
  an iteration whose detector throws never stops the loop, even if `q` was pressed.
- The key check runs after the frame's writes. A frame that shows a new code and carries the `q`
  key is recorded before the loop stops.

## Model

| member | source | states |
|---|---|---|
| `Timestamp.Pad2Reads` | main2.py:57 | the two-digit field (`%m`, `%d`, `%H`, `%M`, `%S`) is all digits and reads back as the number |
| `Timestamp.Pad4Reads` | main2.py:57 | the four-digit `%Y` field is all digits and reads back as the year |
| `Timestamp.Pad2Injective` | main2.py:57 | different numbers give different two-digit fields |
| `Timestamp.Pad4Injective` | main2.py:57 | different years give different four-digit fields |
| `Timestamp.DbTimestamp` | main2.py:57 | the first_seen text is 19 characters, with `-`, `-`, a space, `:` and `:` at positions 4, 7, 10, 13 and 16, the layout of `%Y-%m-%d %H:%M:%S` |
| `Timestamp.DbTimestampReadsBack` | main2.py:57 | the six fields between the separators of the first_seen text are all digits and denote year, month, day, hour, minute and second of `now` |
| `Timestamp.ArchiveName` | main2.py:70 | the file name is 19 characters, with `_` at position 8 and ending in `.jpg`, the layout of `%Y%m%d_%H%M%S` + `.jpg` |
| `Timestamp.ArchiveNameReadsBack` | main2.py:70 | the date digits before `_` and the time digits after it denote year, month, day, hour, minute and second of `now` |
| `Timestamp.ArchiveNameCompactsDbTimestamp` | main2.py:56-70 | the file name built from `now` is the first_seen text built from the same `now`, with `-` and `:` dropped, the space turned into `_`, and `.jpg` appended |
| `Timestamp.ArchiveNameCollision` | main2.py:70-72 | two clock readings give the same file name if and only if they agree down to the second |
| `Timestamp.DbTimestampCollision` | main2.py:56-57 | two clock readings give the same first_seen text if and only if they agree down to the second |
| `Overlay.TruncateTowardZero` | main2.py:60 | `astype(int)` drops the fraction: the result lies between zero and the coordinate, less than one away from it |
| `Overlay.PixelPoints` | main2.py:60 | one integer point per detector corner, each coordinate truncated toward zero, in the detector's order |
| `Overlay.Outline` | main2.py:61-64 | n corners give n segments, and the last one joins the last corner back to the first |
| `Overlay.Frame.DrawLine` | main2.py:62-64 | `cv2.line` adds exactly one segment to the frame and keeps the lines already drawn |
| `Overlay.OutlineAt` | main2.py:60-64 | for n corners there are n segments, and segment i joins corner i to corner (i + 1) mod n |
| `Overlay.OutlineClosed` | main2.py:60-64 | each segment ends where the next one starts, and the last ends where the first starts, so the polygon is closed |
| `Overlay.DrawOutline` | main2.py:61-64 | the drawing loop appends exactly the closed outline of the corners to the frame's lines |
| `Capture.JoinPathInjective` | main2.py:71 | joining the output directory with two file names gives the same path exactly when the names are equal |
| `Capture.ArchivePathCollision` | main2.py:70-71 | two clock readings give the same archive path exactly when they agree down to the second |
| `Capture.QuitKeyIsLowByte` | main2.py:88 | the quit test looks only at the low byte of the key code: `-1` (no key) does not quit, `q` does, and codes differing by a multiple of 256 agree |
| `Capture.StopOf` | main2.py:46-89 | an iteration stops the loop for a read failure exactly when the read failed, and for the quit key exactly when the detector returned and the key's low byte is `q` |
| `Capture.StepChangesIffNew` | main2.py:55-78 | an iteration changes the state exactly when the detector returned a box and non-empty data that is not yet in `seen` |
| `Capture.InsertOrIgnore` | main2.py:75-77 | after INSERT OR IGNORE the payload has a row, an existing row keeps its first_seen, other rows are untouched, and a new row gets the given timestamp |
| `Capture.CaptureLoop.constructor` | main2.py:42 | a session starts with an empty `seen` set and an empty write log, over whatever the table and the output directory already hold |
| `Capture.CaptureLoop.RecordNew` | main2.py:66-78 | the new-payload branch adds the payload to `seen`, writes the picture to its path, then inserts or ignores the row, logging both writes in that order |
| `Capture.CaptureLoop.Iterate` | main2.py:45-90 | one pass of the loop body changes the state exactly as `Step` says and returns exactly the stop decision `StopOf` gives (read failure, `q` after processing, never after a detector exception) |
| `Capture.CaptureLoop.Run` | main2.py:45-90 | the loop leaves the state `Replay` gives for the iterations up to and including the first one that stops it, and reports why it stopped |
| `Capture.LiveAtFirstStop` | main2.py:45-49 | the loop runs exactly the iterations up to and including the first one that stops it, and reports that iteration's reason |
| `Capture.LiveEndsAtStop` | main2.py:47-49 | once an iteration stops the loop, no later iteration is run |
| `Capture.ReadFailureEndsRun` | main2.py:46-49 | a read failure ends the loop at once: the final state is the one reached before it, so neither that iteration nor any later one writes anything |
| `Capture.QuitKeyEndsRun` | main2.py:87-89 | the `q` key ends the loop after that frame has been processed: the final state is that iteration's result, and later iterations have no effect |
| `Capture.DetectorErrorSkipsFrame` | main2.py:50-53 | a detector exception changes nothing, does not stop the loop, and the iterations after it run as if that frame had never been read |
| `Capture.NoEventNoWrite` | main2.py:55 | without a bounding box, or with empty data, the iteration records nothing |
| `Capture.DuplicateNoWrite` | main2.py:66 | a payload already in `seen` leaves the state, the table and the output directory unchanged |
| `Capture.NewPayloadWritesOnce` | main2.py:66-78 | for a payload not in `seen`: the payload joins `seen`, exactly two writes are logged (the file, then the row, stamped from the same clock reading), the file holds the annotated frame, the row keeps any older first_seen, and every other row and every other file stay as they were |
| `Capture.SeenIsDecodedPayloads` | main2.py:42-67 | after any run, `seen` equals its starting value plus the non-empty payloads decoded with a box |
| `Capture.SeenGrows` | main2.py:66-67 | `seen` only grows |
| `Capture.InsertedOncePerPayload` | main2.py:66-78 | each payload has exactly one row insert per session if it was decoded and not already in `seen`, and none otherwise |
| `Capture.TwoWritesPerNewPayload` | main2.py:66-78 | the session issues exactly two writes, one file and one row, per distinct new payload |
| `Capture.WritesArePaired` | main2.py:70-78 | the write log is a series of pairs: a file write at quality 60, then the row insert whose first_seen gives the file's name |
| `Capture.LogGrows` | main2.py:70-78 | writes are only appended: earlier entries of the log are never taken back |
| `Capture.StoresFollowLog` | main2.py:70-78 | the table and the output directory are exactly what the session's ordered writes make of their starting contents, a later file write to a name replacing an earlier one |
| `Capture.FirstSeenNeverOverwritten` | main2.py:75-77 | an existing first_seen is never changed by any run |
| `Capture.FirstSeenIsFirstFrame` | main2.py:56-78 | the table ends with its old rows plus the decoded payloads; a payload that had no row gets the timestamp of the first frame in which it was decoded |
| `Capture.SameSecondOverwrites` | main2.py:70-72 | two different new payloads decoded within one second, in consecutive iterations, produce two file writes to the same name; only the second frame is left under it |
| `Capture.SessionOutcome` | main2.py:42-90 | a whole session from an empty `seen` set: `seen` ends as the decoded payloads, the table gains one row per payload it lacked, each holding its first frame's time; old rows are kept; each payload is inserted once; two writes per payload, file before row |

## Left out

- Camera handling is left out: opening the camera, the resolution hints, the early return when
  it cannot be opened, and the release at the end (main2.py:33-39, 92-94). The model starts with
  the loop and ends when the loop ends.
- QR detection, `imshow`, `waitKey` and JPEG encoding are library calls. Their results are
  inputs: the detector's outcome and the key code are fields of `Outcome`. A frame is an opaque
  image number plus the lines drawn on it.
- The line colour `(0,255,0)` and thickness `2` passed to `cv2.line` are not modelled. Only which
  corners each line joins is modelled.
- The SQLite engine, `init_db` and the schema (main2.py:11-26) are left out. The `qrcodes` table
  is a map from payload to first_seen text. `conn.commit()` is part of the insert.
- The `duplicates` table and the commented-out duplicate logging (main2.py:19-24, 81-85) are left
  out, because no code path uses them.
- A failing `cv2.imwrite` and a failing SQLite statement are not modelled. The source ignores
  `imwrite`'s return value, and a SQLite exception would end the program. The model assumes both
  writes succeed.
- `os.path.join` is modelled as on POSIX systems, joining with `/`. On Windows it joins with
  `\`, which the model does not capture.
- `SameSecondOverwrites`: states the case of two consecutive iterations only. With iterations
  in between, the same conclusion follows from `ArchivePathCollision` and `StoresFollowLog`,
  but no single lemma states it.
- `datetime.now()` is an input: the `now` field of `Outcome`. Years below 1000 are outside the
  model, because how `%Y` pads them depends on the platform.
- Sub-second precision is carried in `now` but used by neither rendering.
- `time.sleep(0.1)` pacing, the printed messages and the window teardown are left out.
- The detector's float32 corner coordinates are modelled as reals truncated toward zero. NaN and
  infinities are not modelled. The `reshape(-1, 2)` is modelled by giving the corners as a list
  of pairs.
- The camera stream is unbounded, while the model runs over a finite list of iterations. If the
  list ends without a stopping iteration, `Run` reports no reason (`None`). The state is then the
  result of every iteration given.
- Duplicate payloads are still drawn on, and the frame is still shown, on every iteration with a
  result. Only the drawing is modelled (in `Iterate`). Nothing observable in the model depends on
  it.
