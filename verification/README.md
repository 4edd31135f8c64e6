# Grasping-dataset preprocessing: a Dafny model

This project models the sequential core of the grasping-pattern recognition
pipeline, in three parts.

- **The session replay node** (`DatasetMediaPipePreprocessing`) works through a folder of recordings.
  - It keeps the names of the `.bag` files in the folder.
  - For the recording being replayed, it keeps the frames still to send, sorted by timestamp, and a growing list of per-frame records.
  - It publishes one frame at a time. The results callback for that frame appends a record, then either publishes the next frame or writes the session's records to `<name minus its last four characters>.json` and loads the next recording.
- **The detection node** (`MediaPipeProcessing`) keeps a one-frame slot that the image subscription overwrites.
  - Each iteration of its polling loop takes the frame out of the slot and sends it to the hands and pose detection services.
  - It then waits for both results and publishes them, paired and tagged with the frame's sequence number.
- **The dataset loader** (`read_dataset`) reads the training samples.
  - It takes the `.json` files of a folder whose names `<object>_<person>_<session>...` match the requested objects, people and sessions.
  - It returns the aligned lists of point sets and labels. Each label is the position of the file's object in the object list.

State is kept in immutable values, and the handlers are pure step functions.
Each step returns three things:
- the next state;
- the outputs in the order they happen (frames published, files written, actions sent to the services, the final message);
- the Python exception raised, if any, together with the state at the point where it was raised.

These things are inputs to the model:
- the directory listing;
- the bag contents, as a map from file name to the messages the bag reader yields;
- the decoded JSON files;
- the detection services, as functions from an image to their result.

Modules, following the source's structure:

| module | file | what it holds |
|---|---|---|
| `Wrappers` | wrappers.dfy | `Option`, `Result` |
| `Strings` | strings.dfy | `endswith`, `s[:-n]`, `split`/`join` on one character |
| `Listing` | listing.dfy | the "is a file and ends with" filter both scripts use |
| `Messages` | messages.dfy | the ROS message types (`Image`, `Hand`, `Pose`, `MpResults`) |
| `JsonValues` | json.dfy | JSON values and dict lookup |
| `Records` | records.dfy | the per-frame record the callback builds, and a decoder for it |
| `StableSort` | stable_sort.dfy | Python's stable `sorted(..., key=...)` |
| `Replay` | replay.dfy | the replay node: `read_next_bag_file`, `mediapipe_results_callback` |
| `Dispatch` | dispatch.dfy | the detection node: `image_callback`, one loop iteration |
| `Pipeline` | pipeline.dfy | the two nodes connected in a closed loop, and what a whole replay produces |
| `Dataset` | dataset.dfy | `read_dataset` |

The model follows the code, including in these places where a reader might expect otherwise:

- Recordings are processed in directory-listing order, not sorted by name.
- The bag's messages are not filtered by topic.
- An unreadable or empty recording raises an exception and stops the replay. It is not skipped.
- Nothing times out: a frame whose result never comes stalls the replay.
- When two frames reach the detection node between polls, the older one is dropped.

## Model

| member | source | states |
|---|---|---|
| Strings.DropLast | pamaral_object_grasping_pattern_recognition/src/dataset_mediapipe_preprocessing.py:60 | `s[:-n]` is `s` without its last `n` characters: putting them back gives `s`; a string shorter than `n` gives the empty string |
| Strings.Split | model_training/utils.py:31 | `split("_")` yields at least one field and no field contains the separator |
| Strings.JoinSplit | model_training/utils.py:31 | joining the fields of a split with the separator gives the name back, so splitting loses no characters |
| Strings.SplitJoin | model_training/utils.py:31 | splitting a join of separator-free fields gives exactly those fields back |
| Listing.FilesWithSuffix | pamaral_object_grasping_pattern_recognition/src/dataset_mediapipe_preprocessing.py:20-27 | every listed file with the suffix is kept, and everything kept is a listed file with the suffix; never more names than entries |
| Listing.FilesWithSuffixAppend | pamaral_object_grasping_pattern_recognition/src/dataset_mediapipe_preprocessing.py:21-27 | the filter keeps listing order: filtering two listings one after the other gives the first one's names and then the second one's |
| Listing.FilesWithSuffixSingle | model_training/utils.py:25-30 | one entry is kept exactly when it is a file whose name ends with the suffix; directories and other names are dropped |
| JsonValues.Get | model_training/utils.py:42 | a dict lookup finds nothing exactly when the key is absent, and otherwise returns a value stored under that key |
| Records.PoseJson | pamaral_object_grasping_pattern_recognition/src/dataset_mediapipe_preprocessing.py:41-47 | an absent pose is stored as null and a present one never is; a present one is a dict with two entries |
| Records.Record | pamaral_object_grasping_pattern_recognition/src/dataset_mediapipe_preprocessing.py:35-52 | the record is a dict whose "pose" is null exactly when the message has no pose, and whose "hands" list has one entry per hand of the message |
| Records.PointsRoundTrip | pamaral_object_grasping_pattern_recognition/src/dataset_mediapipe_preprocessing.py:37-38 | a landmark list converts to `[x, y, z]` triples that read back as the same points in the same order |
| Records.HandRoundTrip | pamaral_object_grasping_pattern_recognition/src/dataset_mediapipe_preprocessing.py:35-39 | a hand's dict reads back as the same handedness and the same two landmark lists |
| Records.HandsRoundTrip | pamaral_object_grasping_pattern_recognition/src/dataset_mediapipe_preprocessing.py:35-39 | hands are converted element by element: the list reads back as the same hands in the same order |
| Records.PoseRoundTrip | pamaral_object_grasping_pattern_recognition/src/dataset_mediapipe_preprocessing.py:41-47 | the pose entry reads back as the same pose: an absent one stays absent, and a present one with no landmarks stays present |
| Records.RecordRoundTrip | pamaral_object_grasping_pattern_recognition/src/dataset_mediapipe_preprocessing.py:35-52 | a record reads back as exactly the message's hands and pose: nothing is lost or reordered |
| StableSort.Insert | pamaral_object_grasping_pattern_recognition/src/dataset_mediapipe_preprocessing.py:75 | inserting into a sorted list keeps it sorted and adds exactly the one element |
| StableSort.Sort | pamaral_object_grasping_pattern_recognition/src/dataset_mediapipe_preprocessing.py:75 | the result is a permutation of the input, ascending by key, and the elements sharing a key keep their input order |
| StableSort.SortUnique | pamaral_object_grasping_pattern_recognition/src/dataset_mediapipe_preprocessing.py:75 | two sorted lists of the same length, with the same per-key order, are equal |
| StableSort.SortIsTheStableOrder | pamaral_object_grasping_pattern_recognition/src/dataset_mediapipe_preprocessing.py:75 | any sorted arrangement of the messages that keeps ties in read order is the one the sort returns |
| Replay.Start | pamaral_object_grasping_pattern_recognition/src/dataset_mediapipe_preprocessing.py:15-27 | the recording list holds every listed file ending in ".bag" and nothing else; neither the records nor the frame queue exists yet |
| Replay.StartKeepsListingOrder | pamaral_object_grasping_pattern_recognition/src/dataset_mediapipe_preprocessing.py:21-27 | recordings keep listing order: a listing split in two gives the first part's recordings followed by the second part's |
| Replay.SortFrames | pamaral_object_grasping_pattern_recognition/src/dataset_mediapipe_preprocessing.py:72-77 | the replay order is a permutation of the bag's messages, ascending by `secs * 10^9 + nsecs`, with equal stamps in read order |
| Replay.OutputName | pamaral_object_grasping_pattern_recognition/src/dataset_mediapipe_preprocessing.py:60 | the output name ends in ".json", and for a ".bag" name, swapping that suffix back gives the recording's name |
| Replay.OutputNameInjective | pamaral_object_grasping_pattern_recognition/src/dataset_mediapipe_preprocessing.py:60 | two different ".bag" recordings never write the same output file |
| Replay.StreamingCount | pamaral_object_grasping_pattern_recognition/src/dataset_mediapipe_preprocessing.py:49-55 | while a recording is replayed, the records so far plus the queued frames plus the one in flight equal the recording's message count |
| Replay.ReadNext | pamaral_object_grasping_pattern_recognition/src/dataset_mediapipe_preprocessing.py:65-83 | with no recording left, only the "all processed" message is produced and nothing changes. Otherwise the records are reset and the recording is loaded, succeeding exactly when it is readable and non-empty. On success its first frame in replay order is published and removed, and the rest is queued. Nothing is published on failure, and never more than one frame. Loading never writes a session file |
| Replay.OnResult | pamaral_object_grasping_pattern_recognition/src/dataset_mediapipe_preprocessing.py:33-63 | a result before the first load raises. A result after a failed first load has its record appended and then raises, because the frame queue was never created. With frames queued it appends exactly one record and publishes the head of the queue; mid-recording that is the next frame in replay order. With the queue empty it writes the file named after the head recording, holding the records so far plus this one, and pops that name; on the last frame of a recording that is one record per message. With the queue empty and no recording left, the record is appended and the lookup of the head recording raises. A file is written only when the queue is empty, at most once per call, before anything else. At most one frame is published. Each call that raises nothing shortens the queue or the recording list |
| Replay.ResultAfterUnreadableFirstBag | pamaral_object_grasping_pattern_recognition/src/dataset_mediapipe_preprocessing.py:49-71 | when the first recording cannot be opened, a later result appends its record and raises, and no file is written |
| Replay.ResultOnEmptyQueue | pamaral_object_grasping_pattern_recognition/src/dataset_mediapipe_preprocessing.py:49-63 | a result arriving with no records and an empty queue is taken as the head recording's only frame: its one record is written under that recording's output name and the name is popped; the call raises exactly when the next recording is unreadable or empty |
| Replay.ResultAfterUnreadableLaterBag | pamaral_object_grasping_pattern_recognition/src/dataset_mediapipe_preprocessing.py:54-71 | when a recording after the first cannot be opened, the queue left empty by the previous session remains; the next result writes a one-record file under the unreadable recording's output name and pops it rather than raising at line 54; it raises only if the recording after it cannot be loaded |
| Replay.ReadNextIdle | pamaral_object_grasping_pattern_recognition/src/dataset_mediapipe_preprocessing.py:82-83 | with no recording left, any number of calls only repeat the "all processed" message and never change the state |
| Dispatch.ImageCallback | pamaral_object_grasping_pattern_recognition/src/mediapipe_processing.py:29-30 | after the callback the slot holds the arriving frame, whatever it held before |
| Dispatch.CallbackOverwrites | pamaral_object_grasping_pattern_recognition/src/mediapipe_processing.py:29-30 | two arrivals in a row leave the same state as the second one alone |
| Dispatch.Tick | pamaral_object_grasping_pattern_recognition/src/mediapipe_processing.py:35-53 | after an iteration the slot is always empty, and an iteration that finds it empty does nothing; the slot is the node's whole state, so that state is unchanged |
| Dispatch.PublishedOfRound | pamaral_object_grasping_pattern_recognition/src/mediapipe_processing.py:39-51 | dispatching a frame publishes exactly one result, the paired answer for that frame |
| Dispatch.TickDispatchesTakenFrame | pamaral_object_grasping_pattern_recognition/src/mediapipe_processing.py:35-51 | an iteration that finds a frame clears the slot and sends that frame, and no other, to both services. It publishes exactly one result, after both results were awaited. That result has the hands service's hands, the pose service's pose and the frame's sequence number |
| Dispatch.RunDispatchesSurvivors | pamaral_object_grasping_pattern_recognition/src/mediapipe_processing.py:29-53 | over any interleaving of arrivals and polls, a frame already in the slot is dispatched if a poll comes first. After that, exactly the arrivals that are directly followed by a poll are dispatched, each once, in order |
| Dispatch.RunFromInitial | pamaral_object_grasping_pattern_recognition/src/mediapipe_processing.py:26-53 | from the empty start state, the dispatched frames are exactly the arrivals that are directly followed by a poll |
| Dispatch.RunAppend | pamaral_object_grasping_pattern_recognition/src/mediapipe_processing.py:29-53 | running two input sequences one after the other is the same as running their concatenation |
| Dispatch.OverwrittenFrameIsLost | pamaral_object_grasping_pattern_recognition/src/mediapipe_processing.py:29-36 | a frame that another arrival overwrites leaves no trace: removing it from the inputs changes neither the actions nor the final state |
| Dispatch.RepeatedPollIsIdle | pamaral_object_grasping_pattern_recognition/src/mediapipe_processing.py:35-36 | a poll straight after a poll finds the slot empty, so no frame is dispatched twice |
| Dispatch.TickAfterCallback | pamaral_object_grasping_pattern_recognition/src/mediapipe_processing.py:29-51 | a frame placed in the slot and polled is published as exactly its own paired result, and the slot is empty again |
| Pipeline.AdvanceStep | pamaral_object_grasping_pattern_recognition/src/dataset_mediapipe_preprocessing.py:49-55 | answering the in-flight frame while frames are queued keeps the records equal to the answers to the frames replayed so far, and publishes the next frame in replay order |
| Pipeline.FlushStep | pamaral_object_grasping_pattern_recognition/src/dataset_mediapipe_preprocessing.py:54-63 | answering the last frame writes the file with the answers to all the recording's frames in replay order, then loads the next recording |
| Pipeline.LoadThenDrive | pamaral_object_grasping_pattern_recognition/src/dataset_mediapipe_preprocessing.py:65-80 | loading the next recording and answering every published frame gives the reference replay of the remaining recordings |
| Pipeline.DriveOnTrack | pamaral_object_grasping_pattern_recognition/src/dataset_mediapipe_preprocessing.py:33-63 | mid-recording, answering every published frame publishes the rest of the recording, writes its file once with all its records, and continues with the next recordings |
| Pipeline.RunMatchesSessions | pamaral_object_grasping_pattern_recognition/src/dataset_mediapipe_preprocessing.py:33-83 | a whole replay equals the reference. For each ".bag" file in listing order it publishes the frames in replay order, then writes that recording's file with one record per frame, in that order, with nothing from another recording. It ends with "all processed", or with the exception of the first unreadable or empty recording |
| Pipeline.ExpectedSucceeds | pamaral_object_grasping_pattern_recognition/src/dataset_mediapipe_preprocessing.py:65-80 | the reference replay ends without an exception exactly when every recording is readable and non-empty |
| Pipeline.ExpectedSaves | pamaral_object_grasping_pattern_recognition/src/dataset_mediapipe_preprocessing.py:54-71 | a complete reference replay writes one file per recording, in order, each with all of its records, and ends with "all processed" |
| Pipeline.RunWritesEverySession | pamaral_object_grasping_pattern_recognition/src/dataset_mediapipe_preprocessing.py:54-71 | a replay completes exactly when every ".bag" recording is readable and non-empty. It then writes each session's file exactly once, in listing order, and ends with "all processed" |
| Dataset.ParseName | model_training/utils.py:31-34 | a name fails to parse, raising an index error, exactly when it has fewer than three '_' fields or an empty third one. Otherwise the session is one character, and the object and person contain no '_' |
| Dataset.SplitTwoFields | model_training/utils.py:31-33 | splitting a name whose first two fields contain no '_' gives those two fields followed by the remainder's fields |
| Dataset.ParseBuiltName | model_training/utils.py:31-34 | a name built as object, '_', person, '_', and a remainder parses back to that object and person, with the remainder's first character as the session, provided the object and person hold no '_' and the remainder is non-empty and does not start with '_' (an empty third field raises, see ParseEmptySession) |
| Dataset.ParseSessionName | model_training/utils.py:31-34 | "cube_pedro_3.json" is object "cube", person "pedro", session "3" |
| Dataset.ParseLongSession | model_training/utils.py:34 | "x_y_12.json" has session "1": only the first character of the third field is kept |
| Dataset.ParseTwoFields | model_training/utils.py:31-34 | a name with only two fields raises |
| Dataset.ParseEmptySession | model_training/utils.py:34 | a name whose third field is empty raises |
| Dataset.FirstIndex | model_training/utils.py:22 | `objects.index(o)` is a position holding `o`, and no earlier position holds it |
| Dataset.FileSamples | model_training/utils.py:41-43 | one file's records give one sample each, in record order, all with the file's label. The load fails exactly when some record has no "points" entry |
| Dataset.LoadFiles | model_training/utils.py:25-43 | a successful load has as many labels as samples, and every label is a valid index into `objects` |
| Dataset.ReadDataset | model_training/utils.py:17-46 | `x` and `y` have the same length, and every label is a valid index into `objects` |
| Dataset.LoadFile | model_training/utils.py:29-43 | a name that does not parse aborts the load, even if no list could select it. A file that is not allowed contributes nothing. An allowed file that cannot be read aborts the load. Every error names the file |
| Dataset.LoadFileContribution | model_training/utils.py:29-43 | what one listed ".json" file adds. An unparsable name aborts the load before the membership test. A file that is not allowed adds nothing. An allowed file that cannot be read, or that has a record without points, aborts the load. Otherwise it adds one sample per record, in order, each labelled with the first index of its object |
| Dataset.LoadFilesAppend | model_training/utils.py:25-43 | loading two name lists one after the other gives the first list's samples and then the second's, or the first exception |
| Dataset.ReadDatasetAppend | model_training/utils.py:25-43 | files are read in listing order and each contributes a contiguous block: two listings give the first's samples followed by the second's, or the first exception |
| Dataset.ReadDatasetSingle | model_training/utils.py:29-30 | a single entry is read only when it is a file ending in ".json" |
| Dataset.LoadFilesComplete | model_training/utils.py:36-46 | a successful load holds one sample for every record of every allowed file: none is dropped |
| Dataset.ReadDatasetComplete | model_training/utils.py:17-46 | without subsampling, the samples returned number exactly the records of the allowed ".json" files |

## Left out

- ROS transport and process setup are not modelled: node init, parameters, publishers, subscribers, queue sizes, the `input()` pause and `spin`. Publishing and subscribing are events in a trace.
- Reading bags and reading and writing JSON files are not modelled.
  - The bag contents, the directory listing and the decoded files are inputs.
  - Writing the session file in `'a+'` mode onto an existing file is an I/O detail.
  - The "Saving ..." log line is not modelled.
- The action clients, `wait_for_server` and the blocking waits are not modelled. The services are functions, and waiting is one step in a sequence.
- Thread interleaving and the 20 Hz rate are not modelled. Callbacks and polls form an arbitrary sequence of events, and each step is atomic.
  - In the source, a frame that arrives between reading the slot and clearing it would be lost. The model does not show this.
- Replay.Bags: every bag message is taken to be a stamped image. A message without `header.stamp` makes the sort at line 75 raise; this is not modelled.
- Replay.StampKey: the source's sort key is the float `secs * 1e9 + nsecs`. The model uses the exact integer. At realistic epoch values, float64 rounding can make two stamps tie where the integer key orders them.
- Landmark coordinates are floats in the source. Here they are opaque `real` values.
- Whether a results message can carry no pose at all depends on a message definition that is not part of this model, so both cases are modelled.
- Messages: the bag's (topic, message, time) tuples are reduced to their messages.
- Dataset.ReadDataset: the `num_samples` branch (random subsampling without replacement) is not modelled, and neither is the conversion to numpy arrays.
  - Each file's contents are a list of decoded records. A file whose top level is not a list is not modelled.
- Dataset.FileSamples: `data[i]["points"]` on a record that is not a dict, or that has no "points" key, is one error. The source raises a `TypeError` or a `KeyError`.
- `write_results` and all plotting and confusion-matrix code in the training utilities are not modelled. They are float formatting, file I/O and graphics.
