# Colour detector core, modelled in Dafny

This project models the pure logic inside the camera loop of the
colour-detection script `test1.py`:

- the **profile table**: the nine built-in HSV profiles, the merge of saved
  profiles over them at start-up (`{**DEFAULT_COLORS, **saved}`), the
  projection written to `color_profiles.json` (non-built-in names, bounds
  only), and the insertion of a calibrated profile. The table keeps Python
  `dict` order;
- the **per-frame classifier**: each profile scores `pixels / priority`.
  The winner is the first profile with the greatest score among those
  matching more than 1000 pixels. A missing priority counts as 5;
- the **stability filter**: the debounce over `last_stable_color`,
  `stable_counter` and `current_color`;
- the **controller**: one loop iteration is the detection step for the
  frame, then the dispatch of one key code. The keys are space (toggle),
  `s` (sample), Enter (commit), Backspace, Escape, printable characters
  and `q` (quit).

The image-processing library computes each profile's matched-pixel count
and the median hue of the sample square. In the model these are inputs:
`px` (one count per profile, in table order) and `sample`, the median hue
(0..179), or `None` when the sample square is empty. When the square is
empty follows from the frame's size and the detection step's bounding box
(module `SampleArea`).

Modules, one per component:

| file | module | contents |
|---|---|---|
| wrappers.dfy | `Wrappers` | `Option` |
| table.dfy | `OrderedTable` | Python-dict semantics over `seq<(string, V)>`: lookup, assignment, `{**a, **b}`, filtered projection |
| profiles.dfy | `Profiles` | `Profile`, built-in table, load merge, save projection, calibrated profile |
| classifier.dfy | `Classifier` | score, gate, first-maximum winner |
| stability.dfy | `Stability` | one debounce step and runs of identical candidates |
| sample.dfy | `SampleArea` | Python slice bounds and the size of the sample square |
| controller.dfy | `Controller` | key dispatch (`Decode`), intents (`Apply`), frame, iteration, state invariant |

Behaviour of the code that is easy to misread:

- **Name collisions on load.** The loader merges `{**DEFAULT_COLORS, **saved}`
  (test1.py:41), so a saved entry overrides a built-in of the same name
  (`Profiles.LoadLookup`). The program never saves built-in names
  (test1.py:50), so after a save and reload the built-ins do win
  (`Profiles.SaveThenLoad`).
- **Confirmation latency.** The comment at test1.py:106 asks for "5
  consistent frames", but the counter counts repeats, not frames. A new
  candidate is confirmed on its seventh consecutive frame. A candidate
  equal to `last_stable_color` (for example, right after a toggle reset) is
  confirmed after max(1, 6 - stable_counter) frames
  (`Stability.ConfirmLatency`).
- **Detection start.** Turning detection on does not clear the confirmed
  colour itself. The frame before the key press was inactive and cleared
  it (`Controller.ToggleOnStartsClean`).
- **Characters in names.** Space and `s` are dispatched before the sampling
  branch, so neither can ever be part of a typed name. Typing `s` restarts
  the sample with an empty name (`Controller.Decode`, `Controller.Inv`).
- **A missing file.** When the profiles file is missing, or holds a JSON
  value that is not an object, `load_colors` returns `None` (see Findings).
- **The sample square.** The detection step rebinds `w, h` to the bounding
  box of the winner (test1.py:114), and the sample square is then cut
  around half the box's size. A box under 100 pixels tall makes the square
  empty, and Enter then ends sampling without storing anything (see
  Findings).

## Model

| member | source | states |
|---|---|---|
| OrderedTable.Insert | test1.py:172-176 | after `d[k] = v` the key maps to the new value and every other key keeps its value |
| OrderedTable.InsertKeys | test1.py:172-176 | an overwritten key keeps its position in the table; a new key is appended at the end |
| OrderedTable.InsertUnique | test1.py:172-176 | assignment never creates a duplicate key |
| OrderedTable.Merge | test1.py:41 | `{**a, **b}` as the assignment of `b`'s entries over `a`, in `b`'s order; what it yields is stated by MergeLookup, MergeKeys and MergeUnique |
| OrderedTable.MergeLookup | test1.py:41 | in `{**a, **b}` a key of `b` takes `b`'s value and any other key keeps `a`'s |
| OrderedTable.MergeKeys | test1.py:41 | `{**a, **b}` lists `a`'s keys in order, then the keys new in `b` in `b`'s order |
| OrderedTable.MergeKeepsPrefix | test1.py:41 | merging never removes or reorders the keys of the base table |
| OrderedTable.MergeUnique | test1.py:41 | the merge of a duplicate-free table stays duplicate-free |
| OrderedTable.Project | test1.py:49-50 | the filtered dict comprehension keeps exactly the keys outside the excluded set, in their original order |
| OrderedTable.ProjectLookup | test1.py:49-50 | in the comprehension's result a kept key holds the mapped value of its entry, and an excluded or absent key is absent |
| OrderedTable.ProjectUnique | test1.py:49-50 | the comprehension over a duplicate-free table is duplicate-free |
| OrderedTable.InsertKeepsPrefix | test1.py:172-176 | assignment never removes or reorders the leading keys of the table |
| OrderedTable.RestorePrefix | test1.py:41-50 | putting the leading keys back in front of what is left once they are removed restores the key list |
| Profiles.DefaultsSound | test1.py:12-22 | the nine built-in names are distinct and every built-in has lower <= upper in each component |
| Profiles.EffectivePriority | test1.py:93 | a profile's own priority is used when present, and 5 otherwise |
| Profiles.SaveProjection | test1.py:49-50 | the saved object holds exactly the non-built-in names, in table order |
| Profiles.SaveProjectionLookup | test1.py:49-50 | the saved object has no entry for a built-in name, and for any other name holds the profile's lower and upper bounds only |
| Profiles.LoadAsWritten | test1.py:34-43 | as written, loading yields no table exactly when the file is missing or not an object; otherwise the built-ins come first |
| Profiles.LoadAsWrittenLosesTable | test1.py:37-41 | a first run (no file) yields no table from the loader as written |
| Profiles.Load | test1.py:34-43 | loading never loses a built-in, keeps them first, keeps keys unique, falls back to the built-ins on any failure, and agrees with the source whenever the source yields a table |
| Profiles.LoadLookup | test1.py:41 | a saved entry overrides the built-in of the same name with its bounds and no priority; other built-ins are kept |
| Profiles.LoadKeys | test1.py:41 | the loaded table lists the built-ins first, then the new saved names in file order |
| Profiles.SaveThenLoad | test1.py:41-50 | a save then a reload restores every built-in and the bounds of every other profile, and loses those profiles' priorities |
| Profiles.RestartKeepsOrder | test1.py:41-50 | a table that starts with the built-ins keeps its whole key order across a save and a reload |
| Profiles.Calibrated | test1.py:172-176 | the calibrated profile has lower <= upper, a hue window inside 0..179 that contains the sample hue and is at most 30 wide, and priority 5 |
| Profiles.CalibratedMatches | test1.py:172-176 | on valid colours, a calibrated profile matches exactly the hues within 15 of the sample with saturation and value at least 50 |
| Classifier.Score | test1.py:93 | the score times the profile's priority (5 when it has none) is the pixel count, and it is never negative |
| Classifier.ScorePositive | test1.py:93-95 | a profile over the pixel gate always scores above the initial best score of 0 |
| Classifier.Scan | test1.py:75-98 | after n profiles the loop has no winner iff none of them passed the gate; otherwise it holds the first gated profile of greatest score, with its name and score |
| Classifier.Classify | test1.py:75-98 | the frame's result is either no winner with score 0 and the empty name, or a gated profile with its own name and score |
| Classifier.ClassifyWinner | test1.py:75-98 | the winner is exactly the first gated profile of maximal score; no gated profile gives no winner and the empty name |
| Classifier.ClassifyGate | test1.py:95 | a profile with at most 1000 pixels never wins, at any position in the table, the first included |
| Classifier.ClassifyFirstWins | test1.py:95-98 | a later profile never beats an earlier gated one of equal or greater score |
| Classifier.ScanCongruent | test1.py:82-98 | the loop's outcome depends on each profile only through its name and its score |
| Classifier.DefaultPrioritiesClassifySame | test1.py:93 | filling in priority 5 once, when the table is built, yields the same winner as defaulting it at each lookup |
| Stability.Step | test1.py:101-108 | the candidate becomes the last one, the streak grows on a repeat and resets otherwise, and the confirmed colour changes only to the candidate once the streak exceeds 5 |
| Stability.RepeatRun | test1.py:101-108 | after k identical candidates the streak is the old streak plus k (continuing run) or k - 1 (new run), and the confirmed colour is the candidate exactly when the streak exceeds 5 |
| Stability.ConfirmLatency | test1.py:101-108 | a new candidate is confirmed from its seventh frame on and a continuing one once its streak passes 5; before that the old confirmed colour is held, even for the empty candidate |
| Controller.Decode | test1.py:159-186 | space and `s` take precedence over the sampling branch; `q` quits exactly when not sampling; outside sampling every other key is ignored; while sampling Enter commits, Backspace deletes, Escape cancels, every other printable key is typed and the rest are ignored |
| Controller.Frame | test1.py:74-117 | an active frame advances the debounce with the classifier's winner; an inactive frame clears the confirmed colour and leaves the streak and last candidate; nothing else changes |
| Controller.Init | test1.py:54-62 | the start-up state: detection off, empty debounce, no sample, the loaded table, nothing saved yet; InitInv states that it satisfies the invariant |
| Controller.Apply | test1.py:159-186 | the effect of each intent; stated key by key by ToggleKey through OtherKeysIgnored, and for the invariant by ApplyPreservesInv |
| Controller.OnKey | test1.py:157-186 | one key press is its decoded intent applied; its contract is carried by the key lemmas and OnKeyPreservesInv |
| Controller.Tick | test1.py:66-186 | one loop iteration is the frame followed by the key press; stated by TickAsKey, TickPreservesInv and ToggleOnStartsClean |
| Controller.RunKeys | test1.py:157-186 | key presses one after another, stopping at the first that quits; stated by TypingAppends, CancelLeavesProfiles and TypeAndCommit |
| Controller.ApplySameSession | test1.py:159-186 | what a key press does to the sampling flag, the name, the table and the file, and whether it quits, depends on nothing else in the state |
| Controller.TickAsKey | test1.py:66-186 | a frame never changes the sampling flag, the name, the table or the file, so a whole iteration affects them, and stops, exactly as its key press alone |
| Controller.InitInv | test1.py:54-62 | the start-up state satisfies the invariant |
| Controller.InsertKeepsTableInv | test1.py:172-176 | storing a calibrated profile keeps the table duplicate-free with the built-ins first |
| Controller.CommitPreservesInv | test1.py:166-178 | Enter keeps the invariant: the file written is the projection of the updated table |
| Controller.ApplyPreservesInv | test1.py:159-186 | every intent keeps the invariant, provided a typed character is neither space nor `s` |
| Controller.OnKeyPreservesInv | test1.py:159-186 | every key keeps the table duplicate-free with the built-ins first, keeps names free of space and `s`, and keeps the saved object equal to the projection of the table |
| Controller.TickPreservesInv | test1.py:66-186 | one whole loop iteration preserves the invariant |
| Controller.ToggleKey | test1.py:159-161 | space flips detection and resets the streak, and changes nothing else, also while sampling |
| Controller.ToggleOnStartsClean | test1.py:116-117 | switching detection on leaves the confirmed colour empty and the streak at 0 |
| Controller.SampleKey | test1.py:162-164 | `s` always (re)starts sampling with an empty name |
| Controller.QuitKey | test1.py:165-186 | `q` stops the loop exactly when no sample is in progress, and is typed while sampling |
| Controller.CommitNamed | test1.py:166-178 | Enter with a typed name and a non-empty sample square stores the calibrated profile under it (in place or at the end), leaves every other profile unchanged, saves the projection and ends sampling |
| Controller.CommitEmptySample | test1.py:166-178 | Enter over an empty sample square only ends sampling; nothing is stored or saved |
| Controller.CommitEmpty | test1.py:166-178 | Enter with an empty name only ends sampling; the table and the file are untouched |
| Controller.BackspaceKey | test1.py:179-180 | Backspace removes the last character of the name and changes nothing else; it does nothing to an empty name |
| Controller.EscapeKey | test1.py:181-182 | Escape only ends sampling |
| Controller.PrintableKey | test1.py:183-184 | while sampling, a printable key other than space and `s` is appended to the name |
| Controller.OtherKeysIgnored | test1.py:159-186 | a key with no role in the current mode (including the 255 read when no key is pressed) changes nothing |
| Controller.TypingAppends | test1.py:183-184 | while sampling, a run of typable keys only extends the name by their characters |
| Controller.CancelLeavesProfiles | test1.py:162-184 | `s`, typing and Escape leave the table and the saved file as they were and end sampling |
| Controller.TypeAndCommit | test1.py:162-178 | `s`, a non-empty typed name and Enter store the calibrated profile under that name, leave the others unchanged and save |
| SampleArea.SliceLen | test1.py:140 | a Python slice is never longer than its sequence nor than `stop - start`, and one within the sequence's bounds has exactly `stop - start` elements |
| SampleArea.ShortCentreEmptiesSlice | test1.py:140 | a 100-wide slice centred less than 50 from the start of a sequence at least 100 long is empty, because Python reads its negative start from the end |
| SampleArea.SquareSize | test1.py:140 | the sample square never holds more than 100 x 100 pixels |
| SampleArea.SquareSizeAsWritten | test1.py:114-169 | the source's sample square: with no box it is the frame-centred square; after a box under 100 pixels tall on a frame at least 100 tall it is empty; it never exceeds 100 x 100 pixels |
| SampleArea.SampleLostOnHdFrame | test1.py:114-169 | on the 1280 x 720 frame the program requests (lines 8-9), a 60 x 60 box leaves nothing to sample, where the frame-centred square holds 10000 pixels |
| SampleArea.SquareSizeOfFrame | test1.py:134-142 | the square around the frame's centre (the `h, w` of line 72) holds all 100 x 100 pixels on any frame at least 100 pixels each way, whatever the detection step found |
| Controller.MaroonCalibration | test1.py:172-176 | a sample of hue 50 gives bounds (35,50,50)..(65,255,255) with priority 5, and the keys M,a,r,o,o,n type "Maroon" |

## Left out

- Camera capture, window creation, drawing and display, `waitKey` and
  release (test1.py:7-9, 64, 119-155, 188-189): input/output and user
  interface. The key code is a parameter in 0..255.
- Image processing: colour conversion, blur, `inRange`, erode/dilate,
  pixel counting, contours, and the median over the sample square. These
  are calls into OpenCV and NumPy. Pixel counts and the median hue are
  parameters; the median is `None` exactly when the sample square is empty,
  which `SampleArea` relates to the frame and box sizes. The winner's
  mask is represented only by the winner's index, and its bounding box only
  by its size. The median saturation and value shown on screen
  (test1.py:143-146) are not modelled.
- File handling: path resolution, opening, JSON parsing and writing, and
  the bare `except` handlers. The outcome of reading the file is the
  `StoredFile` parameter. A write is recorded as the object written
  (`State.saved`). A failed write is not modelled, because it changes no
  in-memory state.
- Profiles.FromBounds: a file entry is taken to hold exactly `lower` and
  `upper`. The program never writes anything else. A hand-edited file with
  a `priority`, missing bounds or values outside 0..255 is not modelled.
- Controller.Tick: takes the sample's median as an input and does not
  compute the sample square from the frame and box sizes, so it covers the
  square as written and the corrected one alike; `SampleArea` relates the
  two.
- Controller.Init: builds on the corrected loader `Profiles.Load`. As
  written, on a first run `color_ranges` is `None`, and the first active
  frame (test1.py:82) or the first commit (test1.py:172) raises. The
  controller does not model that crash; `Profiles.LoadAsWritten` records
  the behaviour that causes it.
- Classifier.Score: the score is an exact rational. The source computes
  `pixels * (1 / priority)` in floating point, so rounding on near-ties is
  not reproduced. A priority of 0 would divide by zero in the source; the
  model's priorities are positive.
- The outer `while True` loop and its exit when the camera read fails.
  `Controller.Tick` models one iteration, and `Controller.RunKeys` a
  sequence of key presses.

## Findings

| source | as written | input that shows it | evidently intended | confidence | as-written member | corrected member |
|---|---|---|---|---|---|---|
| test1.py:114-169 | The detection step stores the winner's bounding box in `w, h` (line 114), the names that hold the frame's size (line 72). Later in the same iteration the sample square is sliced around `h//2, w//2` (lines 140, 168). For a box under 100 pixels tall the first row bound is negative, Python counts it from the bottom of the frame, and the slice is empty, so Enter ends sampling without storing the profile (line 169). A taller box moves the square away from the centre instead. | detection on, a 60 x 60 box on a 1280 x 720 frame, then Enter with a typed name | cut the square around the centre of the frame ("Draw crosshair and sample area", line 134), using the frame's size from line 72 | medium; not executed | SampleArea.SquareSizeAsWritten | SampleArea.SquareSizeOfFrame |
| test1.py:34-43 | `load_colors` returns only from inside `if isinstance(saved, dict)` and from the `except` handler. When the file does not exist, or holds a JSON array, it falls off the end and returns `None`. The next access to `color_ranges` (turning detection on, or committing a sample) then raises. | first run, with no `color_profiles.json` yet | return the built-in table ("Load colors from JSON or return defaults") | high; not executed | Profiles.LoadAsWrittenLosesTable | Profiles.Load |
