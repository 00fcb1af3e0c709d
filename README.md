# Dialog watcher: decision and state layer

This project models, in Dafny, the logic that turns per-frame template-match
scores into "a dialog is on screen" decisions in the blue-archive-watcher
repository. OpenCV does the pixel work (Canny edge maps, `matchTemplate`,
`minMaxLoc`). Here that work is a pair of function-typed parameters
(`Vision.Engine`), so every property holds for any edge detector and any
matcher. Four pieces of the repository are modelled:

- **Stateful detector** (`core/detector.py`, module `Detector`). The module
  globals `_active_dialogue`, `_last_seen_time` and `_debug_counter` become
  the fields of class `FrameDetector`. `FrameDetector.FrameComp` is proved
  equal to the pure step `Cycle` on a `DialogState` value. `Cycle` works as
  follows:
  - It scans the references in listing order and skips those that do not load.
  - It accepts the first reference scoring at least 0.70, which is `FirstMatch`.
  - It snaps the match location to the 8-pixel grid (`Stabilize`).
  - It runs the IDLE / ACTIVE(ref) hysteresis with a 0.6 s exit timeout.
  - On each entry transition it emits a debug image named `match_NNNN.png`.

  The module also models the naming of new references (`ref_{n+1}.png`) and
  of crops (`r_crop{k+1}.png`).
- **Best-match detector** (`Modules/dialog_detector.py`, module
  `DialogDetection`). A template dictionary that keeps insertion order, loaded
  from a folder listing. `detect` takes the global best score over the
  templates that fit the screenshot. It uses strict `>`, starts from 0 and
  applies an inclusive threshold.
- **Alert cooldown** (`Modules/alert_system.py`, module `Alerts`). An alert
  fires iff strictly more than `cooldown` seconds have passed since the last
  one fired. Sound and notification calls are returned as effects.
- **Single-reference check** (`frame_comparison.py`, module
  `FrameComparison`). A score threshold of 0.70 plus a filter that rejects
  matches in the top 35% of the frame.

Shared pieces:
- `Options` holds the `Option` type.
- `Vision` holds images, matches, the oracle types and the Canny thresholds
  (80, 160).
- `Text` holds Python's string semantics: `str(n)`, `:04d`, `endswith`,
  `startswith`, `replace`, `lower` and `os.path.splitext`.

In these details the model follows the code as written:
- A missing or unreadable capture returns early **without** running the exit
  check (`core/detector.py:64-69`). It does not feed the exit-timeout path.
  `NoMatchRun` states this: only readable captures can expire the active
  dialogue.
- The detector reads the clock after loading the frame, so the model takes
  `now` as a parameter of the call.
- `core/detector.py:84` and `frame_comparison.py:61-65` call `matchTemplate`
  without the size check that `Modules/dialog_detector.py:94-95` makes. A
  reference larger than the frame in one axis and smaller in the other makes
  OpenCV raise, and the exception ends the call before any state changes.
  The model keeps that path: `Cycle` ends with `Threw`, and
  `FrameComparison.FrameComp` gives None.
- The exit check tests the truthiness of `_active_dialogue`, so an active name
  `""` would never be cleared (`IsSet`). Names from a directory listing are
  never empty, so in practice this means "is set".

## Model

| member | source | states |
|---|---|---|
| `Detector.Stabilize` | core/detector.py:93-96 | the snapped coordinate is a multiple of 8 with `r <= v < r + 8` (floor division, negative values included) |
| `Detector.StabilizeGreatest` | core/detector.py:93-96 | the snapped coordinate is the greatest multiple of 8 not above `v` |
| `Detector.StabilizeSameCell` | core/detector.py:93-96 | any location in the same 8-pixel cell snaps to the same grid line, so jitter inside a cell leaves the box unchanged |
| `Detector.StabilizeIdempotent` | core/detector.py:93-96 | snapping twice equals snapping once |
| `Detector.FirstMatch` | core/detector.py:77-100 | the scan stops at the first reference in listing order that loads and either makes `matchTemplate` raise (a match error) or scores at least 0.70 (a hit); every earlier one is unreadable, or below 0.70 without raising; if the scan runs out, none qualifies; a hit's box is the snapped location with the template edge map's size |
| `Detector.Scan` | core/detector.py:77-100 | the loop with `continue` on unreadable or low-scoring references, the matcher's error and `break` on the first acceptance returns exactly `FirstMatch` |
| `Detector.FirstMatchIgnoresLater` | core/detector.py:98-100 | references after the accepted one are never examined: replacing them by anything leaves the hit unchanged |
| `Detector.ThresholdInclusive` | core/detector.py:87-88 | a loadable reference whose match does not raise is accepted iff its score is at least 0.70, so exactly 0.70 is accepted |
| `Detector.Cycle` | core/detector.py:58-131 | an entry writes one debug image, named after the counter it raised by exactly 1, and returns True; without one the counter is unchanged; returning True sets last-seen to now with a dialogue active; otherwise last-seen is kept, nothing is written and the active dialogue is kept or cleared; a match error leaves the state unchanged |
| `Detector.FrameDetector.constructor` | core/detector.py:6-11 | initial state: no active dialogue, last seen at 0.0, counter 0 |
| `Detector.FrameDetector.FrameComp` | core/detector.py:58-131 | the returned flag (or the escaping match error), the debug image written and the new values of the three fields are those of `Cycle` on the old fields |
| `Detector.MissingCaptureLeavesState` | core/detector.py:64-69 | a missing or unreadable capture returns False, writes nothing and leaves all three fields untouched, with no exit check |
| `Detector.MatchErrorLeavesState` | core/detector.py:84 | when `matchTemplate` raises before any reference is accepted, the call ends with the exception, writes nothing and leaves all three fields untouched |
| `Detector.FittingReferencesNeverThrow` | core/detector.py:84 | when every loadable reference's edge map fits inside the frame's, the call never ends with a match error |
| `Detector.StillActive` | core/detector.py:104-109 | matching the active dialogue returns True, sets last-seen to now, and leaves the active name and the counter unchanged with no debug image |
| `Detector.EntryTransition` | core/detector.py:111-125 | matching anything else, or anything while idle, makes the match active, sets last-seen to now, raises the counter by exactly 1, returns True and writes `match_` + the new counter padded to 4 digits + `.png` with the snapped box |
| `Detector.NoMatch` | core/detector.py:127-131 | with no match: returns False; last-seen and counter unchanged; the active dialogue is cleared iff it was set and `now - last_seen > 0.6` (strict), and otherwise kept |
| `Detector.CounterCountsEntries` | core/detector.py:111-113 | over any run of calls, the counter rises by exactly the number of entry transitions |
| `Detector.OneEntryPerOccurrence` | core/detector.py:104-125 | repeated matches of one reference give exactly one entry (none if it was already active), and it is active afterwards |
| `Detector.NoMatchRun` | core/detector.py:64-131 | over calls that match nothing there are no entries and last-seen and counter are unchanged; the dialogue is cleared iff it was set and some call with a readable capture and no match error came more than 0.6 s after it was last seen |
| `Detector.ArtifactsNumbered` | core/detector.py:111-123 | over any run of calls, the `k`-th debug image written is named after the run's starting counter plus `k + 1` |
| `Detector.DistinctArtifactNames` | core/detector.py:111-123 | within one detector's run, no two debug images written get the same file name |
| `Detector.DebugFileName` | core/detector.py:119-122 | a debug file name starts with `match_`, ends with `.png` and has at least 4 characters between them; `DebugFileNameReadsBack` pins those to the padded counter |
| `Detector.DebugFileNameReadsBack` | core/detector.py:119-122 | a debug file name is `match_` + at least 4 digits + `.png`, and the digits read back as the counter |
| `Detector.DebugFileNameInjective` | core/detector.py:119-122 | distinct counters give distinct debug file names |
| `Detector.NewReferenceName` | core/detector.py:50-52 | a new reference's name starts with `ref_` and ends with `.png` |
| `Detector.SelectReference` | core/detector.py:41-52 | a file is written iff the selection has positive width and height; its name has the form `ref_…png` |
| `Detector.NewReferenceNameReadsBack` | core/detector.py:50-52 | a new reference is named `ref_` + digits + `.png`, and the digits read back as one more than the number of `.png` names already present |
| `Detector.CropExistingReference` | core/detector.py:132-168 | a crop is written iff the reference loads and the selection is non-empty; its name ends in `.png` |
| `Detector.CropName` | core/detector.py:156-163 | a crop's name starts with the reference's name with every `.png` removed, followed by `_crop`, and ends with `.png` |
| `Detector.CropNameOfPng` | core/detector.py:158-163 | a crop of `r.png` (no other ".png" in `r`) is named `r_crop{k+1}.png`, where `k` counts the names starting with `r_crop` |
| `Text.Decimal` | core/detector.py:52 | `str(n)` is digits only, at least one, with no leading zero, and a single digit iff `n < 10` |
| `Text.ZeroPad` | core/detector.py:121 | `:04d`-style padding is digits only, of length the larger of the width and the length of `str(n)` |
| `Text.DecimalRoundTrip` | core/detector.py:52 | `str(n)` reads back as `n` |
| `Text.ZeroPadRoundTrip` | core/detector.py:121 | `:04d` padding reads back as the padded number |
| `Text.ReplaceAll` | core/detector.py:158-160 | `str.replace` leaves a string without the pattern unchanged, and keeps its length when the replacement is as long as the pattern |
| `Text.ReplaceAllFinal` | core/detector.py:160-163 | `str.replace` of ".png" in `r + ".png"` touches only the final occurrence when `r` holds none |
| `Text.Stem` | Modules/dialog_detector.py:48 | `os.path.splitext(f)[0]` is a prefix of `f`; when it is shorter, `f` continues with a dot and has no dot after it, and the stem is not all dots |
| `Text.StemOfSplit` | Modules/dialog_detector.py:48 | `os.path.splitext` of `b + ext` gives back `b` when `ext` has one leading dot and `b` is not all dots |
| `DialogDetection.Put` | Modules/dialog_detector.py:150 | setting a key keeps the dictionary well formed and earlier keys in their order; it sets the key's value, leaves every other key's value unchanged and adds no other key |
| `DialogDetection.IsTemplateFile` | Modules/dialog_detector.py:34-35 | a file is a template iff its name ends in `.png`, `.jpg` or `.jpeg` with only that ending's letter case ignored |
| `DialogDetection.LoadAll` | Modules/dialog_detector.py:43-49 | loading a listing keeps the existing keys in their order at the front and removes no key |
| `DialogDetection.LoadAllKeys` | Modules/dialog_detector.py:34-53 | after loading, a key is present iff it was before or some loadable image file has it as stem; keys no file provides keep their values; the dictionary stays well formed |
| `DialogDetection.LoadAllLastWins` | Modules/dialog_detector.py:43-49 | when several files share a stem, the value is the image of the last one listed |
| `DialogDetection.TemplateKey` | Modules/dialog_detector.py:34-35 | a file `b` + `.png`/`.jpg`/`.jpeg` in any letter case passes the filter and is keyed `b` |
| `DialogDetection.HiddenTemplateKey` | Modules/dialog_detector.py:48 | a file named `.png` passes the filter and keeps `.png` as its key (splitext ignores a leading dot) |
| `DialogDetection.BestUpTo` | Modules/dialog_detector.py:85-116 | the best match fits inside the screenshot and has the maximum score among the templates that fit; earlier templates score strictly less (ties keep the earlier one); its score is above 0, and with no best match every fitting score is at most 0; its location is that template's match location and its size is the template's width and height |
| `DialogDetection.SelectBest` | Modules/dialog_detector.py:84-116 | the loop over the templates, with its size skip and strict `>` against a best starting at 0, returns `BestUpTo` over all templates |
| `DialogDetection.Verdict` | Modules/dialog_detector.py:118-140 | detected iff a best match exists and its score reaches the threshold (inclusive); on success the details are the best match; on failure they are the best confidence (0 if none), the threshold and the number of templates |
| `DialogDetection.DialogDetector.Detect` | Modules/dialog_detector.py:58-140 | the threshold defaults to 0.8; a None screenshot gives `(False, {}, None)`; an empty dictionary gives False with `{'error': 'No templates loaded'}` and the screenshot; otherwise the verdict on the best match over all templates, with templates-checked counting skipped templates too |
| `DialogDetection.DialogDetector.constructor` | Modules/dialog_detector.py:13-22 | the folder defaults to "templates"; starts from an empty dictionary and loads the folder |
| `DialogDetection.DialogDetector.LoadTemplates` | Modules/dialog_detector.py:24-56 | a missing folder loads nothing; otherwise the dictionary becomes `LoadAll` of the old one over the listing, and stays well formed |
| `DialogDetection.DialogDetector.AddTemplate` | Modules/dialog_detector.py:142-152 | the dictionary becomes `Put(old, name, image)` and stays well formed |
| `Alerts.AlertSystem.constructor` | Modules/alert_system.py:14-19 | `last_alert_time = 0`, `cooldown = 5`, no sound file, sound and notifications on |
| `Alerts.SoundEffects` | Modules/alert_system.py:21-33 | no sound iff sound is off; otherwise one effect, and it plays the custom file only if one is set and exists |
| `Alerts.NotificationEffects` | Modules/alert_system.py:37-48 | no notification iff notifications are off; otherwise exactly one, titled as given, for app "Dialog Detector" with timeout 5 |
| `Alerts.AlertSystem.PlaySound` | Modules/alert_system.py:21-35 | performs `SoundEffects` for the current flags |
| `Alerts.AlertSystem.SendNotification` | Modules/alert_system.py:37-50 | performs `NotificationEffects` for the current flag |
| `Alerts.FullMessage` | Modules/alert_system.py:70-72 | the message is kept and gains a confidence suffix iff details are given and contain 'confidence', carrying that value |
| `Alerts.AlertSystem.Alert` | Modules/alert_system.py:52-80 | details default to none; fires iff `now - last_alert_time > cooldown` (strict); when it fires, records `now` and performs sound then notification; when suppressed, returns False, does nothing and keeps `last_alert_time` |
| `Alerts.FiredCount` | Modules/alert_system.py:65-78 | of a sequence of calls, at most all fire, and the first fires when the cooldown has elapsed since the last alert |
| `Alerts.AlertAll` | Modules/alert_system.py:52-80 | calling `alert` once per time, in order, fires exactly `FiredCount` times and leaves the cooldown unchanged |
| `Alerts.NoneWithinCooldown` | Modules/alert_system.py:65 | no call within `cooldown` of the last alert fires |
| `Alerts.AtMostOnceWithinCooldown` | Modules/alert_system.py:65-80 | calls in time order, no two more than `cooldown` apart, fire at most once between them |
| `Alerts.TwoCallsWithinCooldown` | Modules/alert_system.py:65-78 | of two calls on one alert system at most `cooldown` apart, at most one fires |
| `FrameComparison.Decide` | frame_comparison.py:72-92 | below 0.70 gives "no match"; at least 0.70 (inclusive) with `y < 0.35 * height` gives "too high"; otherwise "detected" — each iff |
| `FrameComparison.FrameComp` | frame_comparison.py:48-92 | `matchTemplate` raises iff the edge maps have incompatible sizes; otherwise the call returns True iff the score is at least 0.70 and the match is not above 35% of the frame height |
| `FrameComparison.FittingCropNeverRaises` | frame_comparison.py:61-65 | a crop whose edge map fits inside the frame's never makes the call raise |
| `FrameComparison.BelowThresholdRejects` | frame_comparison.py:74 | a score below 0.70 returns False |
| `FrameComparison.ThresholdInclusive` | frame_comparison.py:72-74 | a score of exactly 0.70 passes the threshold |
| `FrameComparison.TopRegionRejects` | frame_comparison.py:78-81 | a good match with `y < 0.35 * frame height` returns False |
| `FrameComparison.LowerRegionAccepts` | frame_comparison.py:83-89 | a good match with `y >= 0.35 * frame height` returns True |
| `FrameComparison.SameEdgeThresholds` | frame_comparison.py:56-57 | the verdict depends on the edge detector only through its output at thresholds (80, 160), which both the template and the frame receive |

## Left out

- OpenCV internals are not modelled: `Canny`, `matchTemplate` with `TM_CCOEFF_NORMED` and `minMaxLoc`. They are the parameters `Engine.canny` and `Engine.matcher`. Image loading is an `Option<Image>`.
- Of the errors `matchTemplate` can raise, only the size one is modelled (`Vision.MatchRaises`: the template larger than the image in one axis and smaller in the other). Type and depth mismatches cannot arise from grayscale edge maps and are not modelled.
- `Detector.DistinctArtifactNames` holds within one process only. `_debug_counter` is a module global that restarts at 0 with every process, while the `debug/` folder persists, so a restarted detector writes `match_0001.png` again over the old file.
- File-system and clock I/O become parameters. `os.listdir` order is a given sequence. `os.path.exists`/`cv2.imread` of a capture is an `Option<Image>`. `time.time()` is a parameter. Whether the sound file exists is a parameter.
- Writing files is not modelled. The debug image and the reference crops are reported by name and box only. No pixels are drawn, copied or saved, and a failed `imwrite` is not modelled.
- The `detect` debug image is returned as the screenshot itself. The rectangle and label drawn on its copy are not modelled.
- The interactive ROI selection and its display scaling are not modelled (`selectROI`, `resize`, the `int(x / scale)` mapping). The selection rectangle is a parameter.
- The base-frame assertions of `refrence_selector` are not modelled (`core/detector.py:18-23`). They guard the interactive selection.
- The `frame_comp` of `frame_comparison.py` reads fixed file names. Its two assertions that both images loaded (`frame_comparison.py:52-53`) become the `requires` of `FrameComparison.FrameComp`.
- The `refrence_selector` of `frame_comparison.py` is not modelled (`frame_comparison.py:5-46`). It is an interactive crop of `B.A_refrence_dia.png` written to `reference_crop.png`: display scaling, ROI selection and file I/O, with no decision logic.
- `DialogDetector.save_template_from_screenshot` is not modelled. It writes a file and then calls `load_templates`, which is modelled.
- Folder creation in `load_templates` is not modelled. The `os.makedirs` of a missing folder is I/O; the model only records that nothing is loaded.
- Printed messages, and the exceptions caught and printed by `play_sound` and `send_notification`, are not modelled.
- `Alerts.FullMessage`: the confidence suffix is kept as the value, not as the text `:.1%` formats. Only numeric entries of the details dictionary are modelled.
- `Text.Lower`: only ASCII letters are lowered; Python's full Unicode case mapping is not modelled.
- `FrameComparison.Decide`: `h * 0.35` is exact real arithmetic here. Python computes it in binary floating point, which can differ when `y` sits exactly on the boundary.
- Scores and timestamps are reals, not IEEE doubles. The source only compares them and subtracts timestamps.
- Window and camera capture, monitor threads and queues, and all GUI panels are outside this model.
