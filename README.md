# Plate decision logic of the number-plate detection system

This project models the plate-decision core of the two video entry points of
the number-plate detection system: the code that turns a camera's stream of
frames into reported licence plates once the object detector and the OCR
engine have run. It leaves out the inference itself.

- **Token segmentation and acceptance** (`Segmentation`). The OCR fragments
  are split by content:
  - Purely alphabetic fragments are sorted by height into *small* (below 0.95
    of the mean letter height) and *large*.
  - Purely numeric fragments are *numbers*.
  - Mixed fragments are split character by character: their letters count as
    large and their digits as numbers.

  The plate is `small + large + numbers`. It is accepted only if it has a
  letter, a digit and at least four characters. The classifier is a set of
  loops (`Classify` and its helpers), each proved against the specification
  function `ClassifySpec`.
- **Frame fusion** (`FrameAggregation`, video_plate_recognition.py).
  - Detections with confidence at least 0.35 are cropped with 5 % padding,
    clamped to the frame (`Geometry`).
  - OCR entries with confidence at least 0.5 and non-empty stripped text are
    collected across all regions. They are then sorted with a stable sort
    (`StableSort`) by a key that adds the crop's left edge in the frame to the
    entry's left edge as measured in the crop resized to twice its size.
  - They are classified together into at most one candidate per frame. The
    letter groups are upper-cased at the join.
- **Five-second majority vote** (`Voting`, `WindowPipeline`).
  - Candidates are appended to `detection_buffer`.
  - Once at least `time_limit` seconds have passed and the buffer holds
    something, the most common string wins. Ties go to the string buffered
    first, as `Counter.most_common(1)` breaks them.
  - The winner is reported only if it differs from `last_detected_plate`.
  - The buffer is then cleared and the timer restarts.
  - The state lives in the class `VotingWindow`. The main loop is
    `WindowLoop.Step`.
- **Per-region segmentation and immediate debounce** (`RaspiPipeline`,
  `Debounce`, video_plate_recognition_raspi.py).
  - Each region is cropped with a two-pixel margin and read on its own.
  - Its entries are sorted by the left edge of their box.
  - The confident entries are stripped, upper-cased and classified.
  - An accepted plate is emitted at once if it differs from the last emitted
    plate, or if at least 0.5 s have passed since the last emission (class
    `Debouncer`).
- **Read-failure and reconnect counter** (`StreamControl`).
  - Each failed read increments `consecutive_failures`.
  - The tenth consecutive failure triggers a reconnect, after which the
    counter is 0 whether or not the reopen succeeded.
  - A good read resets the counter and counts a frame. Only every second
    frame goes to detection.
  - The state lives in the class `StreamController`. The main loop is
    `RaspiLoop.Step`.

Heights, confidences and clock readings are exact `real`s. Python's `int()`
on floats is truncation toward zero (`Geometry.Trunc`). NumPy crops follow
Python slice rules, so a negative bound counts from the end. The clock, the
frame read outcome and the reopen outcome are parameters.

Behaviour of the code worth knowing:

- The 5 s timer restarts when a window closes, with a fresh clock reading (the
  `restart` parameter), and at program start. It does not restart at the
  first observation after a close. If the time limit has passed while the
  buffer is empty, the next candidate closes the window at once.
- In video_plate_recognition.py an OCR exception is not caught, so it ends the
  program (`OcrRaised`). Only the raspi variant skips the failing region.
- video_plate_recognition.py fuses the fragments of all regions of a frame
  into one candidate. The raspi variant forms one candidate per region.
- After a failed reopen the raspi loop does not stay in a reconnecting state.
  It resets the counter to 0 and goes back to reading, so the next reconnect
  comes after another ten failures.
- video_plate_recognition.py filters the fragments before sorting them. The
  raspi variant sorts all entries first and filters them afterwards.

## Model

| member | source | states |
|---|---|---|
| Chars.Upper | video_plate_recognition_raspi.py:283 | `str.upper` on the OCR alphabet: same length, each character upper-cased |
| Chars.Strip | video_plate_recognition.py:189 | `str.strip`: the result is a contiguous slice of the input, everything cut off is whitespace, and the result neither starts nor ends with whitespace |
| Chars.StripStart | video_plate_recognition.py:189 | leading whitespace removed: the result is a suffix of the input and whatever was cut is whitespace |
| Chars.StripEnd | video_plate_recognition.py:189 | trailing whitespace removed: the result is a prefix of the input and whatever was cut is whitespace |
| Chars.LettersAppend | video_plate_recognition.py:229-235 | the letters of a concatenation are the letters of each part, in order |
| Chars.DigitsAppend | video_plate_recognition.py:229-242 | the digits of a concatenation are the digits of each part, in order |
| Chars.FilteredClasses | video_plate_recognition.py:229-235 | character splitting yields only letters for the letter group and only digits for the number group |
| Chars.AlphaFilters | video_plate_recognition.py:220-226 | splitting an all-letter text keeps all of it as letters and yields no digits |
| Chars.DigitFilters | video_plate_recognition.py:227-228 | splitting an all-digit text keeps all of it as digits and yields no letters |
| Chars.UpperClasses | video_plate_recognition.py:245-246 | upper-casing turns letters into upper-case letters and leaves digits alone |
| StableSort.Insert | video_plate_recognition.py:201 | inserting into a sorted list keeps it sorted, adds exactly one element, and puts it after every element with the same key |
| StableSort.SortBy | video_plate_recognition.py:201 | `list.sort(key=...)`: the result is sorted by the key, is a permutation of the input, and elements with equal keys keep their input order |
| Geometry.Trunc | video_plate_recognition.py:153 | `int()` truncates toward zero: the result is within one of the input, on the side of zero |
| Geometry.PadAndClamp | video_plate_recognition.py:158-161 | the clamped box lies in the frame; with non-negative padding it contains a box that already lay in the frame; on each axis where no clamping is needed, that axis is exactly the padded interval |
| Geometry.ToPixels | video_plate_recognition.py:152 | defines the pixel box as `int()` of each normalised coordinate times the frame size, truncating toward zero through `Trunc` (also video_plate_recognition_raspi.py:231-234); its clamping is stated by `FivePercentBox` and `TwoPixelBox` |
| Geometry.FivePercentBox | video_plate_recognition.py:153-161 | the 5 % padded box is clamped to 0 <= x1, 0 <= y1, x2 <= width, y2 <= height, and contains the detector box when that lies in the frame |
| Geometry.TwoPixelBox | video_plate_recognition_raspi.py:231-241 | the two-pixel padded box is clamped to 0 <= x1, 0 <= y1, x2 <= width, y2 <= height, and is the box grown by 2 on each side when that fits |
| Geometry.SliceBound | video_plate_recognition.py:164 | a Python slice bound normalises to a position within the axis |
| Geometry.ClampedCropNonEmpty | video_plate_recognition.py:164-166 | for a clamped box, the crop is non-empty exactly when the box has positive width and height |
| Segmentation.Classify | video_plate_recognition.py:198-242 | the classifier loops compute `ClassifySpec`: mean height of the pure-letter fragments, small/large/number groups, or digits only when no pure-letter fragment exists |
| Segmentation.ClassifySpec | video_plate_recognition.py:209-242 | defines the three groups: with a purely alphabetic token, small and large letters split at 0.95 of their mean height, mixed tokens split by character; without one, only the digits (also video_plate_recognition_raspi.py:280-321); its meaning is stated by `ClassifyContents`, `ClassifyCharClasses` and `AcceptanceIff` |
| Segmentation.LetterHeights | video_plate_recognition.py:209-213 | the height loop sums the heights of exactly the pure-letter fragments and counts them |
| Segmentation.ClassifyByHeight | video_plate_recognition.py:215-235 | the categorising loop yields small letters (height below 0.95 of the mean), large letters with the letters of mixed fragments, and numbers |
| Segmentation.SplitMixed | video_plate_recognition.py:229-235 | the character loop over a mixed fragment yields its letters and its digits, dropping every other character |
| Segmentation.CollectDigits | video_plate_recognition.py:236-242 | with no letter fragment, the loop gathers every digit of every fragment |
| Segmentation.AlphaCountPositive | video_plate_recognition.py:209-211 | the mean letter height is defined exactly when some fragment is purely alphabetic |
| Segmentation.NumbersAreDigits | video_plate_recognition.py:227-242 | on both paths the number group is every digit of the fragments, in order |
| Segmentation.TokenLetters | video_plate_recognition.py:220-235 | one fragment adds exactly its letters to the two letter groups |
| Segmentation.LettersPermuted | video_plate_recognition.py:215-235 | the small and large groups together hold exactly the letters of the fragments, as a multiset |
| Segmentation.ClassifyContents | video_plate_recognition.py:209-242 | numbers are all digits of the fragments in order; with a pure-letter fragment the letter groups are a permutation of all its letters, and without one they are empty |
| Segmentation.ClassifyCharClasses | video_plate_recognition.py:215-242 | the letter groups hold only letters and the number group only digits |
| Segmentation.DigitTokensHaveNoLetters | video_plate_recognition.py:236-242 | fragments that are all digits give no letters |
| Segmentation.AcceptanceIff | video_plate_recognition.py:244-261 | the acceptance test passes exactly when a pure-letter fragment exists, the fragments hold a digit, and there are at least four letters and digits in all |
| Segmentation.AlphaTokenGivesLetter | video_plate_recognition.py:209-226 | a pure-letter fragment contributes at least one letter |
| Segmentation.HeightExample | video_plate_recognition.py:221-226 | letters A, B, C of height 10 and D of height 20 with digits 1234: A, B and C are small, D is large, 1234 are the numbers |
| Segmentation.MixedExample | video_plate_recognition.py:229-235 | `K` and the mixed `AB-12`: letters KAB are large, 12 are numbers, `-` is dropped |
| Segmentation.MixedPieceParts | video_plate_recognition.py:220-235 | `AB-12` is neither alphabetic nor numeric; its letters are AB and its digits 12 |
| Segmentation.MixedLetters | video_plate_recognition.py:231-233 | the letters of `AB-12` are AB |
| Segmentation.MixedDigits | video_plate_recognition.py:234-235 | the digits of `AB-12` are 12 |
| FrameAggregation.CollectFragments | video_plate_recognition.py:145-196 | the region loop collects exactly `FrameFragments`, and yields `None` when some region's OCR raised |
| FrameAggregation.RegionFragments | video_plate_recognition.py:147-196 | defines one region's fragments: none below 0.35 or for an empty crop, `None` when OCR raises, otherwise the kept entries; stated by `RegionFragmentsQualify` and `CollectRegion` |
| FrameAggregation.FrameFragments | video_plate_recognition.py:145-196 | defines the frame's fragments as the regions' fragments in detection order, `None` once any region's OCR raised; stated by `CollectedFragmentsQualify`, `KeptEntryCollected` and `NoneStaysNone` |
| FrameAggregation.TextHeight | video_plate_recognition.py:194 | defines the text height as the absolute difference of the box's bottom and top (also video_plate_recognition_raspi.py:285) |
| FrameAggregation.CollectRegion | video_plate_recognition.py:151-196 | one region: nothing below detector confidence 0.35 or for an empty crop, `None` when OCR raised, otherwise its kept entries |
| FrameAggregation.KeepEntries | video_plate_recognition.py:186-196 | the entry loop keeps the entries with confidence >= 0.5 and non-empty stripped text, with x = crop left + entry left |
| FrameAggregation.NoneStaysNone | video_plate_recognition.py:177-180 | once a region's OCR raised, the frame yields no fragment list at all |
| FrameAggregation.KeptEntryCollected | video_plate_recognition.py:192-196 | every entry with confidence >= 0.5 and non-empty stripped text is collected |
| FrameAggregation.CollectedFromKeptEntry | video_plate_recognition.py:192-196 | every collected fragment comes from such an entry |
| FrameAggregation.CollectedFragmentsQualify | video_plate_recognition.py:186-196 | every fragment of a frame has confidence >= 0.5 and non-empty, stripped text |
| FrameAggregation.RegionFragmentsQualify | video_plate_recognition.py:186-196 | every fragment of one region has confidence >= 0.5 and non-empty, stripped text |
| FrameAggregation.Tokens | video_plate_recognition.py:213-218 | each fragment becomes the classifier's token with its text and height, in order |
| FrameAggregation.FuseFrame | video_plate_recognition.py:198-262 | the fused candidate of a frame: the upper-cased groups joined, if it has a letter, a digit and length >= 4 |
| FrameAggregation.FusedCandidate | video_plate_recognition.py:198-262 | defines the frame candidate: sort by key, classify, upper-case letters then digits, and the letter/digit/length acceptance; stated by `FusedAcceptanceIff` and `FusedCandidateShape` |
| FrameAggregation.OrderedHasAlpha | video_plate_recognition.py:201-209 | sorting neither adds nor removes a pure-letter fragment |
| FrameAggregation.FusedAcceptanceIff | video_plate_recognition.py:244-262 | a frame yields a candidate exactly when a collected fragment is purely alphabetic, there is a digit, and at least four letters and digits in all |
| FrameAggregation.FusedCandidateShape | video_plate_recognition.py:244-248 | a candidate is upper-case letters followed by every digit of the fragments in left-to-right order |
| FrameAggregation.UpperLetters | video_plate_recognition.py:245-246 | upper-casing the letter groups gives only upper-case letters |
| FrameAggregation.NoAlphaNoCandidate | video_plate_recognition.py:236-262 | with no purely alphabetic fragment, nothing is appended to the buffer |
| Voting.FirstIndex | video_plate_recognition.py:269-270 | the first position of a buffered string: the order `Counter` keeps its keys in |
| Voting.WinnerUpTo | video_plate_recognition.py:269-272 | among the first n entries, the chosen string has the largest count and, among equal counts, the earliest first occurrence |
| Voting.Winner | video_plate_recognition.py:269-272 | `most_common(1)[0][0]` is in the buffer, has the maximal count, and is the earliest-buffered among equal counts |
| Voting.MostCommonUnique | video_plate_recognition.py:269-272 | the most-common rule determines a single string |
| Voting.CountBounds | video_plate_recognition.py:272 | a count is at most the buffer length and at least 1 exactly for buffered strings |
| Voting.Count | video_plate_recognition.py:269 | defines `Counter`'s count of one string in the buffer; stated by `CountBounds` and `CountPair` |
| Voting.CountPair | video_plate_recognition.py:269-272 | the counts of two different strings add up to at most the buffer length |
| Voting.MajorityWins | video_plate_recognition.py:269-272 | a string holding more than half of the buffer wins |
| Voting.ThreeCandidateExample | video_plate_recognition.py:269-272 | buffer AB123, AB123, CD456: AB123 wins with 2 votes |
| Voting.TickMeaning | video_plate_recognition.py:264-320 | no close means no change and no report; a close empties the buffer, restarts the timer, records the winner and reports it exactly when it differs from the last plate, with 1 <= count <= total = buffer length |
| Voting.TickSpec | video_plate_recognition.py:264-320 | defines one window check: open windows are unchanged; a closing one reports the winner with its count and the buffer length unless it equals the last plate, then empties the buffer and restarts the timer; stated by `TickMeaning` |
| Voting.RepeatedWinnerSuppressed | video_plate_recognition.py:275-276 | the same winner at the next close is not reported again |
| Voting.ReportsAlternate | video_plate_recognition.py:264-320 | over any run, the last plate is the last report, the first report differs from the initial last plate, and no report repeats the one before it |
| Voting.ReportsWereOffered | video_plate_recognition.py:262-276 | every report and every buffered string was buffered before or appended by a frame of the run |
| Voting.VotingWindow.constructor | video_plate_recognition.py:90-95 | empty buffer, timer started at the given clock reading, no last plate |
| Voting.VotingWindow.Add | video_plate_recognition.py:262 | the candidate is appended to the buffer and nothing else changes |
| Voting.VotingWindow.Tick | video_plate_recognition.py:264-320 | the window moves and reports exactly as `TickSpec` says |
| WindowPipeline.PayloadBounds | video_plate_recognition.py:292-297 | a reported payload names the winner, which differs from the previous last plate, with 1 <= `detection_count` <= `total_detections` = buffer length |
| WindowPipeline.WindowLoop.constructor | video_plate_recognition.py:88-95 | frame counter 0 and a fresh, empty window |
| WindowPipeline.WindowLoop.Step | video_plate_recognition.py:104-320 | a failed read ends the stream and changes nothing; an OCR exception ends the program after counting the frame; otherwise the frame's candidate is buffered and the window checked as `FrameStep` says |
| RaspiPipeline.NormalizedAll | video_plate_recognition_raspi.py:281-286 | each entry becomes a token with stripped, upper-cased text and its box height |
| RaspiPipeline.NormalizeConfident | video_plate_recognition_raspi.py:280-312 | the loop keeps exactly the entries with confidence >= 0.5, in order, normalised |
| RaspiPipeline.SegmentRegion | video_plate_recognition_raspi.py:270-333 | one region's plate: nothing for an empty OCR result, otherwise the joined groups if they have letters, numbers and length >= 4 |
| RaspiPipeline.RegionCandidate | video_plate_recognition_raspi.py:270-333 | defines one region's plate: nothing for an empty OCR result, otherwise sort by left edge, keep confident entries, strip and upper-case, classify and accept; stated by `RegionAcceptanceIff` and `RegionPlateShape` |
| RaspiPipeline.ConfidentOnly | video_plate_recognition_raspi.py:284-312 | the classifier's entries all have confidence >= 0.5, and each confident entry is kept as often as it occurs |
| RaspiPipeline.ConfidentSorted | video_plate_recognition_raspi.py:272 | filtering a list sorted by left edge keeps it sorted and adds nothing |
| RaspiPipeline.ConfidentMembers | video_plate_recognition_raspi.py:284-312 | an entry reaches the classifier exactly when it is one of the region's entries and has confidence >= 0.5 |
| RaspiPipeline.ClassifierInput | video_plate_recognition_raspi.py:272-312 | the classifier sees exactly the confident entries, each once, ordered by left edge |
| RaspiPipeline.RegionHasAlpha | video_plate_recognition_raspi.py:280-288 | a reference height exists exactly when a confident entry's stripped, upper-cased text is alphabetic |
| RaspiPipeline.AlphaEntrySeen | video_plate_recognition_raspi.py:280-286 | a confident alphabetic entry reaches the classifier as an alphabetic token |
| RaspiPipeline.AlphaTokenFromEntry | video_plate_recognition_raspi.py:280-286 | an alphabetic token comes from a confident alphabetic entry |
| RaspiPipeline.RegionAcceptanceIff | video_plate_recognition_raspi.py:270-333 | a region yields a plate exactly when it returned entries, a confident entry is alphabetic, the confident text holds a digit, and there are at least four letters and digits |
| RaspiPipeline.NoLetterNoPlate | video_plate_recognition_raspi.py:313-333 | without a confident alphabetic entry only digits are gathered and nothing is accepted |
| RaspiPipeline.RegionPlateShape | video_plate_recognition_raspi.py:323-333 | an accepted plate is letters followed by every digit of the confident text, left to right |
| RaspiPipeline.OffersComeFromRegions | video_plate_recognition_raspi.py:225-344 | every plate offered to the debouncer comes from a detection with confidence at least 0.35 whose crop and segmentation yield it, with that region's clock reading |
| RaspiPipeline.OfferOf | video_plate_recognition_raspi.py:227-333 | one region: nothing below 0.35, for an empty crop or on an OCR error, otherwise its accepted plate |
| RaspiPipeline.RegionOffer | video_plate_recognition_raspi.py:224-333 | defines what a region offers the debouncer: nothing below 0.35, for an empty crop or a caught OCR error, otherwise its region plate; stated by `OfferOf` |
| RaspiPipeline.FrameOffers | video_plate_recognition_raspi.py:224-344 | defines the frame's offers as the regions' plates in detection order, each with its own clock reading; stated by `OffersComeFromRegions` |
| RaspiPipeline.RaspiLoop.constructor | video_plate_recognition_raspi.py:133-148 | all counters 0, no last plate, last emission time 0 |
| RaspiPipeline.RaspiLoop.ProcessFrame | video_plate_recognition_raspi.py:225-344 | `detection_count` grows by the detections with confidence at least 0.35, and the debouncer moves and emits as `Debounce.RunOffers` says over the frame's plates |
| RaspiPipeline.RaspiLoop.Step | video_plate_recognition_raspi.py:150-344 | the read handling moves as `StepSpec` says and keeps the loop-head invariant; only a sampled frame runs the region loop |
| Debounce.OfferMeaning | video_plate_recognition_raspi.py:337-344 | a candidate is emitted exactly when it differs from the last plate or 0.5 s have passed; on emission both fields update, otherwise nothing changes |
| Debounce.OfferSpec | video_plate_recognition_raspi.py:337-344 | defines one offer to the debouncer: emit and record plate and time when the plate changed or 0.5 s passed, otherwise change nothing; stated by `OfferMeaning` |
| Debounce.StateIsLastEmission | video_plate_recognition_raspi.py:342-344 | after any run, the last plate and time are those of the last emission, or unchanged if nothing was emitted |
| Debounce.EmissionsSpaced | video_plate_recognition_raspi.py:342 | every emission differs from the one before it or comes at least 0.5 s after it |
| Debounce.ChangedPlateEmitted | video_plate_recognition_raspi.py:342 | a candidate differing from the last plate is always emitted |
| Debounce.RepeatWithinIntervalSuppressed | video_plate_recognition_raspi.py:342 | a repeat of the last plate within 0.5 s changes nothing and emits nothing |
| Debounce.EmittedWereOffered | video_plate_recognition_raspi.py:337-344 | everything emitted was offered |
| Debounce.ImmediateExample | video_plate_recognition_raspi.py:337-344 | after AB123, XY999 is emitted at once, its repeat 0.2 s later is not, a repeat 0.6 s after the emission is |
| Debounce.Debouncer.constructor | video_plate_recognition_raspi.py:135-136 | no last plate, last emission time 0 |
| Debounce.Debouncer.Offer | video_plate_recognition_raspi.py:337-344 | the fields and the emission are those `OfferSpec` gives |
| StreamControl.RunReads | video_plate_recognition_raspi.py:150-203 | one action per read |
| StreamControl.StepSpec | video_plate_recognition_raspi.py:154-203 | defines one read: a failure counts up and the tenth reconnects with the counter back at 0; a good read resets the counter, counts the frame and processes every second one; stated by `StepMeaning` |
| StreamControl.StepMeaning | video_plate_recognition_raspi.py:154-203 | one read keeps 0 <= failures < 10; a good read zeroes the counter, counts a frame and processes it exactly when the count is even; a failure reconnects exactly when it is the tenth and otherwise retries |
| StreamControl.CountersFromStart | video_plate_recognition_raspi.py:147-196 | from the start, the failure counter is the number of trailing failed reads modulo 10 and the frame counter the number of good reads |
| StreamControl.FailedReadAt | video_plate_recognition_raspi.py:155-192 | a failed read reconnects exactly when it brings the trailing failures to a multiple of 10, and otherwise retries |
| StreamControl.GoodReadAt | video_plate_recognition_raspi.py:194-203 | a good read goes to detection exactly when it is an even-numbered good read, and is otherwise skipped |
| StreamControl.FailuresBelowLimit | video_plate_recognition_raspi.py:155-192 | failures below the limit only retry, counting up |
| StreamControl.LimitOfFailuresReconnectsOnce | video_plate_recognition_raspi.py:155-188 | ten consecutive failures from a zero counter make exactly one reconnect, on the last, and leave the counter at 0 |
| StreamControl.GoodReadResets | video_plate_recognition_raspi.py:194-203 | a good read at any point zeroes the counter and never reconnects |
| StreamControl.StreamController.constructor | video_plate_recognition_raspi.py:133-147 | both counters 0 |
| StreamControl.StreamController.OnRead | video_plate_recognition_raspi.py:154-203 | a failure increments the counter and asks for a reconnect at 10; a good read zeroes it, counts a frame and skips odd frames |
| StreamControl.StreamController.OnReconnect | video_plate_recognition_raspi.py:181-186 | the counter is 0 whether or not the reopen succeeded |
| StreamControl.StreamController.Poll | video_plate_recognition_raspi.py:150-203 | one iteration's read handling moves as `StepSpec` says and restores 0 <= failures < 10 |
| StreamControl.PollAll | video_plate_recognition_raspi.py:150-203 | over any sequence of reads the loop-head invariant holds and the counters and actions are those of `RunReads` |

## Left out

- YOLOv5 and EasyOCR inference. The detections and OCR entries of a frame are inputs (`Region`, `OcrResult`). An OCR exception is the `Raised` outcome.
- Image work: flipping, colour conversion, resizing, histogram equalisation, drawing, display, video writing and JPEG encoding. The image field of the payload is not modelled.
- The HTTP request, its status handling and base64. Delivery happens between recording the winner in `last_detected_plate` and clearing the buffer, and it changes no voting state, so `WindowLoop.Step` does not take its outcome. The `restart` clock reading is taken after the request, which can take up to its 2 s timeout; the model leaves that reading free.
- The real clock and all sleeps. Clock readings are parameters (`now`, `restart`, the per-region `times`). The 3 s and 2 s reconnect delays and the 50 ms retry delay have no counterpart.
- Releasing and reopening the capture handle. Only the reopen outcome is a parameter, and it changes nothing in the state.
- Quitting the loop by key press and the startup failure to open the stream.
- The averaged OCR confidence (`avg_confidence`, `ocr_conf`). It is only printed or unused.
- Status and progress printing, including the failure message printed once per second.
- The `OCR_ENABLED` / `reader is None` branch of the raspi variant. The model assumes OCR is available.
- The frame-skip branch of video_plate_recognition.py. `process_every_n_frames` is 1, so the branch never runs.
- Unicode behaviour of `str.isalpha`, `str.isdigit` and `str.upper`. The OCR allowlist limits text to `0-9A-Z-`, and the model uses ASCII letters and digits with Python's whitespace set for `strip`.
- server.py: Flask routes, SQLite storage and HTML. test_esp32_stream.py: a camera connection test.
- StableSort.SortBy: `list.sort` works in place on `frame_ocr_texts`. Here it is a function on sequences, so the in-place update is not modelled.
