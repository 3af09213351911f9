# Face verification core of DeepFakeImageDetector, in Dafny

This project models the decision logic of the face-verification pipeline in
`app.py` and proves properties of it. The pipeline has four pure parts:

- **Centre-face selection** (`Geometry`). From the boxes a face detector reports, pick
  the box whose truncated centre lies nearest the image centre. The first such
  box wins ties, because the source compares with a strict `<`.
- **Normalisation of one image** (`Normalizer`). An unreadable image is skipped.
  When faces are found, the crop of the centre face is written. When none is found,
  the original image is written. Both writes go to the input path with every
  occurrence of the input root replaced by the output root (`Paths`, Python's
  `str.replace`).
- **k-NN dissimilarity** (`Dissimilarity`, with `Sorting` as its specification
  device). faiss's exact `IndexFlatL2` search is stated by what it returns: the
  4 smallest squared L2 distances from the first probe vector to the claim
  vectors, in ascending order. The score is their sum, divided by 4, then by 100.
- **Verdict** (`Decision`). The verdict is `"fake"` exactly when the score is
  above 0.55. `Decision.Evaluate` chains the search, the score and the verdict,
  and returns an error value in each case where the source would raise, and
  for fewer than 4 claim vectors (see below).

The collaborators are passed in as function parameters: the image decoder, the
face detector, the landmark aligner and the cropper. Their code is not part of
this model. The normaliser returns the write it would perform as an `Outcome`
value: `NoWrite`, or `Write(path, Cropped(..) | Original(..), makesParentDirs)`.

Distances are compared squared, in integers. The source compares square roots
as floats. `Geometry.SquareRootPreservesOrder` proves that a square root never
changes the outcome of `<`.

Two behaviours of the code deserve a note:

- The code creates the parent directory only in the face branch
  (app.py:123-124). The no-face branch writes without creating it
  (app.py:127-128). The `makesParentDirs` flag records this.
- With 1 to 3 claim vectors, the code raises nothing (app.py:238-249). faiss is
  documented to fill the missing neighbours with label −1 and the largest float
  distance. The sum at app.py:244 is then about 3.4e38 or infinite, and the
  route answers "fake". The model departs from the code here: it reports such
  input as the error `TooFewClaims` instead of modelling that padding.

## Model

| member | source | states |
|---|---|---|
| Geometry.Half | app.py:93-96 | halving truncates toward zero, as `int(x / 2)` and numpy `astype(int)` do: for n ≥ 0 the remainder n − 2r is 0 or 1, for n < 0 it is 0 or −1 |
| Geometry.CentreDist | app.py:92-97 | no contract of its own: the squared distance between the truncated box centre (`BoxCentre`) and the truncated image centre (`ImageCentre`). `Half` states the truncation, and `SquareRootPreservesOrder` shows that comparing it orders boxes as `distance2center`'s square root does |
| Geometry.CentreIndex | app.py:99-107 | for a non-empty box list, the chosen index has a distance no greater than any box's, and every earlier box is strictly farther (the first minimum wins) |
| Geometry.Filter2CenterBox | app.py:99-107 | the source's loop, starting from an infinite minimum and index −1, returns exactly one box; that box is an element of the input, its index meets the centre criterion, and it agrees with `CentreIndex` |
| Geometry.CentreChoiceUnique | app.py:102-106 | the selection criterion (minimal distance, with ties going to the lowest index) is met by at most one index, so the selected box is determined |
| Geometry.SquareRootPreservesOrder | app.py:97 | for non-negative roots, `sqrt(a) < sqrt(b)` exactly when `a < b`, so comparing squared distances selects the same box as comparing Euclidean distances |
| Paths.Replace | app.py:122-127 | no contract of its own: Python's `str.replace` with no count. `ReplaceAbsent`, `ReplaceLeading` and `ReplaceFirstOccurrence` characterise it for a non-empty pattern |
| Paths.ReplaceAbsent | app.py:122 | `s.replace(p, r)` with a non-empty `p` that does not occur in `s` returns `s` unchanged |
| Paths.ReplaceLeading | app.py:122 | a leading occurrence of the pattern is replaced, and scanning resumes right after it |
| Paths.MirrorPath | app.py:127 | a path made of the input root followed by a remainder that does not contain the root again maps to the output root followed by the same remainder |
| Paths.ReplaceFirstOccurrence | app.py:122 | for a non-empty pattern whose first occurrence starts at i, the result keeps the text before i, puts the replacement in place of the occurrence, and continues replacing in the text after it; with ReplaceAbsent for the remainder, every non-overlapping occurrence, left to right, is replaced |
| Paths.ReplacesEveryOccurrence | app.py:127 | two examples: both occurrences in "a/a" are replaced, and with an empty pattern the replacement is inserted between all characters and at both ends |
| Normalizer.OutPath | app.py:122-127 | no contract of its own: the output path is `Replace(imagePath, inputRoot, outRoot)`. `MirrorPath` and `NormalizeMirrorsPath` state where it leads for a file under the input root |
| Normalizer.Normalize | app.py:109-128 | nothing is written exactly when the image cannot be read; otherwise one write happens, to the path with the input root replaced; with no face it writes the original image and creates no directory; with faces it writes the crop of the box nearest the centre, creating the parent directory first when it is missing |
| Normalizer.NormalizeCropDetermined | app.py:116-125 | for a readable image and the boxes detected in it, whichever index meets the centre criterion, the outcome is the write of the cropper applied to the aligner's landmarks for that box, with the parent directory made |
| Normalizer.NormalizeMirrorsPath | app.py:122-128 | an image directly under the input root, whose remaining path does not contain the root again, is written to the same remaining path under the output root |
| Dissimilarity.SqL2 | app.py:238 | no contract of its own: the squared Euclidean distance of `IndexFlatL2`, a natural number by its type; `SqL2ZeroIff` characterises when it is zero |
| Dissimilarity.SqL2ZeroIff | app.py:238 | the squared L2 distance between two vectors of equal dimension is zero if and only if the vectors are equal |
| Dissimilarity.KNearest | app.py:238-243 | the search returns k distances in ascending order, drawn from the query's distances as a sub-multiset; every distance left out is at least every distance returned |
| Dissimilarity.Score | app.py:244-247 | no contract of its own: the sum of the returned distances, over 4, over 100. `FourNearestScore`, `ScoreUniform`, `ScoreAtLeast` and `ScoreAtMost` characterise it |
| Dissimilarity.QueryScore | app.py:238-247 | no contract of its own: `Score` of the 4 nearest distances from the probe to the claim vectors. `QueryScorePermutation` and `FourNearestClaims` characterise it |
| Dissimilarity.KNearestPermutation | app.py:243 | the k distances returned depend only on the multiset of distances, not on their order |
| Dissimilarity.QueryScorePermutation | app.py:226-247 | reordering the claim vectors, as `os.listdir` may, leaves the score unchanged |
| Dissimilarity.KNearestWithin | app.py:238-243 | when k of the distances are at most d, every distance the search returns is at most d, whatever the other distances are |
| Dissimilarity.ScoreWithinNearest | app.py:243-247 | k distances at most d bound the score by d / 100, however large the other distances are |
| Dissimilarity.FourNearestScore | app.py:243-247 | when 4 distances are each at most every other distance, the score is exactly their sum divided by 4 and then by 100: the mean of the 4 nearest distances, over 100 |
| Dissimilarity.ScoreAtLeast | app.py:244-247 | a lower bound on every distance, divided by 100, is a lower bound on the score |
| Dissimilarity.ScoreAtMost | app.py:244-247 | an upper bound on every distance, divided by 100, is an upper bound on the score |
| Dissimilarity.ScoreUniform | app.py:244-247 | when all distances equal d, the score is exactly d / 100, so the division by 4 and the division by 100 are each applied once |
| Decision.Verdict | app.py:249 | the verdict is "fake" if and only if the score is strictly greater than 0.55 |
| Decision.VerdictMonotone | app.py:249 | if a score is judged "fake", every higher score is judged "fake" too |
| Decision.VerdictBoundary | app.py:249 | a score of exactly 0.55 is "real", 0.5500001 is "fake", and 0.0 is "real" |
| Decision.Evaluate | app.py:224-255 | a verdict is produced exactly on well-formed input: at least 4 claim vectors of one dimension and at least one probe vector of that dimension; fewer than 4 such claim vectors gives TooFewClaims; a produced score is non-negative, and its status is "fake" exactly when the score is above 0.55 |
| Decision.OnlyFirstProbeCounts | app.py:243-247 | on well-formed input the result equals the result for the first probe vector alone |
| Decision.ClaimOrderIrrelevant | app.py:225-247 | the whole result, verdict or error, is the same for any reordering of the claim vectors |
| Decision.EvaluateWithin | app.py:238-247 | the score lies between the smallest and the largest squared distance from the probe to a claim vector, each divided by 100 |
| Decision.VerdictFromDistances | app.py:238-249 | a probe within squared distance 55 of every claim vector is judged "real"; a probe farther than 55 from every claim vector is judged "fake" |
| Decision.NearClaimsDecide | app.py:238-249 | if some 4 of the claim vectors lie within squared distance d of the first probe vector, a verdict is produced, its score is at most d / 100, and for d ≤ 55 it is "real", whatever the other claim vectors are |
| Decision.FourNearestClaims | app.py:238-247 | if 4 claim vectors are at least as near to the first probe as every other claim vector, a verdict is produced, and its score is the sum of their 4 squared distances, divided by 4, then by 100 |
| Decision.OutlierClaimIgnored | app.py:238-249 | four claim vectors equal to the probe and a fifth of the same dimension anywhere give score exactly 0.0 and the verdict "real": the fifth claim vector does not count, however far away it is |
| Decision.UniformClaims | app.py:238-247 | when every claim vector equals one vector c, the score is the squared distance from the probe to c divided by 100, with its verdict |
| Decision.IdenticalProbeIsReal | app.py:238-249 | a probe equal to every claim vector scores exactly 0.0 and is judged "real" |
| Decision.OrthogonalProbeExample | app.py:238-249 | five claim vectors [1, 0] and the probe [0, 1] give squared distance 2 each, score 0.02, verdict "real" |

## Left out

- Flask routes, file uploads and `render_template` (app.py:130-165, 257-258): web plumbing with no decision logic.
- The MongoDB client and its inserts (app.py:39-49, 147, 163): a network client.
- `clear_directory` and the creation of the upload folders (app.py:35-37, 81-90): filesystem side effects.
- Loading the models and the YAML configuration (app.py:52-63, 169-189): foreign libraries and configuration.
- `extract_features` (app.py:72-79): a torch forward pass on float tensors through an opaque model. The model takes the probe and claim vectors as given.
- The `crop_faces` route loops (app.py:194-200): they call the modelled normaliser once per listed file, and are not modelled as an operation of their own.
- The `extract_features` route loops (app.py:209-219): they embed each crop with the left-out `extract_features` and save one `.npy` file per crop with `np.save`. The `os.path.splitext` naming of those files is a library routine. The model starts from the vectors they produce.
- The internals of detection, landmark alignment, cropping and the cv2 codecs: they are function parameters. The 112×112 crop size is the cropper's promise, not the model's. Exceptions they raise, and the `False` that `cv2.imwrite` returns on failure, are not modelled.
- faiss internals: the search is stated by its result only. faiss's result for an index with fewer than 4 vectors is not part of this model.
- Decision.Evaluate: reports fewer than 4 claim vectors as the error TooFewClaims. The source instead lets faiss pad the missing neighbours, which makes the route answer "fake".
- Dissimilarity.KNearest: vector components are integers and the distances exact. float32 rounding of embeddings and distances is not modelled.
- Geometry.Filter2CenterBox: box coordinates are integers, and distances are compared exactly through their squares. The floating-point rounding of `math.pow` and `math.sqrt`, and non-integral detector coordinates, are not modelled.
- Normalizer.Normalize: when the output path has no directory part, the source calls `os.makedirs('')` in the face branch (app.py:123-124), which raises an uncaught FileNotFoundError. The model returns the write instead. The two callers (app.py:196, 200) always pass paths inside a folder, so this does not arise from them.
