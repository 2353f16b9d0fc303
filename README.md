# GeoReference-Pipeline, modelled in Dafny

GeoReference-Pipeline is an event-driven, two-stage pipeline for scanned
maps. The first stage, the compression handler, re-encodes an uploaded TIFF
as a PNG. When the PNG is over a size target, it shrinks the image by a
fixed-length bisection over a scale factor.

The second stage, the analysis handler, takes the structured reply of a
vision model: the map description, the map-level township-range strings, the
county, and the water resources. It then:

- gives every township-range string a default section;
- resolves the map-level strings to positions;
- places each water resource, by a township lookup first and by geocoding
  second;
- derives the map's bounding box, centre, closed ring and `ENVELOPE(...)`
  string;
- builds the GeoJSON feature collection (boundary first, then the points);
- writes the spatial-coverage and description strings;
- fills a fixed 73-column Dublin Core metadata row and appends it to a
  cumulative table.

The model gives each stage its own form:

- A step-by-step loop of the source is a Dafny `method` with a loop. Each is
  proved equal to a specification function, and the source's promises are
  proved as lemmas about that function. These loops are the normalisation
  and lookup loops, the water-resource loop, the eight-step bisection and the
  record loop.
- Expressions of the source are functions: the box, the strings and the row.

Everything outside the decision logic is a function-typed parameter:

- the township-range web service and the geocoder (`Option` oracles);
- the size of an optimised PNG encoding, as a function of the image's
  dimensions;
- fetching and decoding an object;
- the GitHub upload, and writing the table back;
- how a float is written.

Files:

| file | contents |
|---|---|
| `wrappers.dfy` | `Option` and `Outcome` |
| `seqs.dfy` | `Map` over a sequence |
| `text.dfy` | the Python string operations used: `isspace`, `strip`, `in`, `join`, `lower`, `endswith`, one-character `split` |
| `paths.dfy` | `os.path.basename`, `os.path.splitext`, and the error-record key both handlers share |
| `resolution.dfy` | section normalisation, map-level resolution, and the two-tier placement of water resources |
| `geometry.dfy` | bounding-box basis, box, centre, ring, envelope string, and feature order |
| `metadata.dfy` | spatial coverage, description, the metadata row, the table append, and the GeoJSON name |
| `analysis.dfy` | one invocation of the analysis handler, from the parsed reply to its response |
| `compressor.dfy` | `optimize_image_size`, `convert_tiff_to_png_stream`, and the record loop of the compression handler |

Where the code falls short of its own docstrings:

- **The size target.** The docstrings of `optimize_image_size` and
  `convert_tiff_to_png_stream` (compression_handler.py:16 and :45) promise a
  PNG that meets the target size. The search tries only scales of at least
  0.1 + 0.9/2^8 (`Compressor.SmallestScale`). When none of them fits it
  returns the original image, still over the target
  (`Compressor.OverTargetFallback`).
- **Raising during the search.** A resize to a zero width or height raises,
  and the compressor then writes an error record instead of a PNG. This
  happens for an image small enough that `int(width * mid)` reaches 0
  (`Compressor.SearchFailure`).

A line of the code that has no effect: the `if not query` check at
analysis_handler.py:290-291 can never fire. The query is either a non-empty
township string or the name followed by ", Colorado, USA"
(`Resolution.PlaceGeocodeTier` proves `query != []`).

## Model

| member | source | states |
|---|---|---|
| Text.StripSpec | geo_reference_pipeline/lambda_functions/analysis_lambda/analysis_handler.py:272-274 | `strip` gives the slice of the string that starts after its leading whitespace, and that slice neither starts nor ends with whitespace |
| Text.StripOutside | geo_reference_pipeline/lambda_functions/analysis_lambda/analysis_handler.py:272-274 | everything `strip` removes is whitespace |
| Text.StripEmpty | geo_reference_pipeline/lambda_functions/analysis_lambda/analysis_handler.py:279 | a stripped string is empty exactly when the whole string is whitespace, which is when `if ts:` skips the township tier |
| Text.StripIdempotent | geo_reference_pipeline/lambda_functions/analysis_lambda/analysis_handler.py:255 | stripping twice is stripping once |
| Text.ContainsIff | geo_reference_pipeline/lambda_functions/analysis_lambda/analysis_handler.py:254 | the `"Section" in ts` scan succeeds exactly when the marker occurs at some index |
| Text.JoinContains | geo_reference_pipeline/lambda_functions/analysis_lambda/analysis_handler.py:388-396 | every element of a `join` occurs in the joined string |
| Text.SplitJoin | geo_reference_pipeline/lambda_functions/analysis_lambda/analysis_handler.py:340 | splitting a join at a separator no element contains gives the elements back |
| Text.LowerAppend | geo_reference_pipeline/lambda_functions/compress_lambda/compression_handler.py:91 | `lower` works character by character, so it distributes over concatenation |
| Paths.Basename | geo_reference_pipeline/lambda_functions/analysis_lambda/analysis_handler.py:226 | the base name holds no '/', is a suffix of the key, and is preceded by a '/' when it is shorter than the key |
| Paths.SplitExt | geo_reference_pipeline/lambda_functions/analysis_lambda/analysis_handler.py:377 | `splitext`'s two parts put together give the name back; a non-empty extension starts with its only dot and holds no '/' |
| Paths.SplitExtOf | geo_reference_pipeline/lambda_functions/analysis_lambda/analysis_handler.py:399 | a name `b` followed by a one-dot extension splits into `b` and that extension |
| Paths.SplitExtNoDot | geo_reference_pipeline/lambda_functions/analysis_lambda/analysis_handler.py:399 | a name without a dot has no extension |
| Paths.BaseStem | geo_reference_pipeline/lambda_functions/analysis_lambda/analysis_handler.py:509 | the key `dir/b.ext` has base name `b.ext` and stem `b` |
| Resolution.NormalisedHasSection | geo_reference_pipeline/lambda_functions/analysis_lambda/analysis_handler.py:253-256 | after normalisation, every township-range string mentions "Section" |
| Resolution.NormalisedTownshipsHaveSection | geo_reference_pipeline/lambda_functions/analysis_lambda/analysis_handler.py:252-256 | `updated_map_township` has one string per input string, and each mentions "Section" |
| Resolution.NormaliseIdempotent | geo_reference_pipeline/lambda_functions/analysis_lambda/analysis_handler.py:253-256 | normalising twice is normalising once, so a normalised string passes through unchanged |
| Resolution.NormaliseMapTownships | geo_reference_pipeline/lambda_functions/analysis_lambda/analysis_handler.py:252-256 | the normalisation loop builds exactly the normalised list, in order |
| Resolution.ResolveMapTownships | geo_reference_pipeline/lambda_functions/analysis_lambda/analysis_handler.py:259-264 | the lookup loop keeps exactly the resolved strings, in order, each tagged with its own string |
| Resolution.MapFixesAppend | geo_reference_pipeline/lambda_functions/analysis_lambda/analysis_handler.py:259-264 | resolving two runs of strings one after the other resolves the joined run |
| Resolution.MapFixesSound | geo_reference_pipeline/lambda_functions/analysis_lambda/analysis_handler.py:259-264 | every kept position is what the lookup returned for its own reference string; every string that resolves is kept; none is kept exactly when none resolves |
| Resolution.PlaceTownshipTier | geo_reference_pipeline/lambda_functions/analysis_lambda/analysis_handler.py:272-283 | the township service is asked exactly when the stripped string is non-empty, and only for its normalised form, which mentions a section; when that gives a position, it is the resource's and the geocoder is not asked |
| Resolution.PlaceGeocodeTier | geo_reference_pipeline/lambda_functions/analysis_lambda/analysis_handler.py:285-298 | when the township tier gave nothing, the geocoder is asked last, for the township string or else for the name followed by ", Colorado, USA"; the query is never empty, and the answer is the resource's position |
| Resolution.PlaceProvenance | geo_reference_pipeline/lambda_functions/analysis_lambda/analysis_handler.py:276-298 | the provenance is "Township-Range: " with the string for tier 1, and "Geocoded from name: " with the name for tier 2; it is empty exactly when the resource was not placed |
| Resolution.PlaceResource | geo_reference_pipeline/lambda_functions/analysis_lambda/analysis_handler.py:272-300 | the loop body for one resource computes the placement the tier lemmas describe |
| Resolution.ResolveWaterResources | geo_reference_pipeline/lambda_functions/analysis_lambda/analysis_handler.py:267-320 | the water-resource loop builds exactly the points, labels, positions and requests of the placements, in input order |
| Resolution.StageNext | geo_reference_pipeline/lambda_functions/analysis_lambda/analysis_handler.py:302-320 | one more resource adds its point and position only when it was placed, always adds its label, and adds its requests |
| Resolution.WaterPointsAppend | geo_reference_pipeline/lambda_functions/analysis_lambda/analysis_handler.py:302-317 | the points and positions of two runs of resources are those of the first followed by those of the second |
| Resolution.WaterPointsSingle | geo_reference_pipeline/lambda_functions/analysis_lambda/analysis_handler.py:302-317 | one resource gives a point and a position exactly when it was placed |
| Resolution.PointsMatchCoords | geo_reference_pipeline/lambda_functions/analysis_lambda/analysis_handler.py:303-308 | there are as many points as positions, no more than the resources, and each point's coordinates are `[longitude, latitude]` of the position at the same index |
| Geometry.MinOf | geo_reference_pipeline/lambda_functions/analysis_lambda/analysis_handler.py:336-337 | `min` of a non-empty list is an element of it and at most every element |
| Geometry.MaxOf | geo_reference_pipeline/lambda_functions/analysis_lambda/analysis_handler.py:336-337 | `max` of a non-empty list is an element of it and at least every element |
| Geometry.BoundsContain | geo_reference_pipeline/lambda_functions/analysis_lambda/analysis_handler.py:333-337 | west ≤ east, south ≤ north, and every basis position lies inside the box |
| Geometry.BoundsTight | geo_reference_pipeline/lambda_functions/analysis_lambda/analysis_handler.py:334-337 | each edge of the box is touched by some basis position |
| Geometry.CentreInside | geo_reference_pipeline/lambda_functions/analysis_lambda/analysis_handler.py:338-339 | the centre lies inside the box, as far from each edge as from the opposite one |
| Geometry.RingClosed | geo_reference_pipeline/lambda_functions/analysis_lambda/analysis_handler.py:341-347 | the ring has five positions of two numbers each, its first equals its last, and every position lies on the box |
| Geometry.RingRoundTrip | geo_reference_pipeline/lambda_functions/analysis_lambda/analysis_handler.py:341-347 | bounding the ring's positions gives the box back |
| Geometry.BoundsOfIs | geo_reference_pipeline/lambda_functions/analysis_lambda/analysis_handler.py:334-337 | a box holding all positions, with one position at its south-west corner and one at its north-east corner, is their min/max box |
| Geometry.EnvelopeRoundTrip | geo_reference_pipeline/lambda_functions/analysis_lambda/analysis_handler.py:340 | the envelope lists west, east, north, south in that order: reading it back gives the box back |
| Geometry.ExtentBasis | geo_reference_pipeline/lambda_functions/analysis_lambda/analysis_handler.py:323-352 | there is a box exactly when some position is known; the map-level positions take precedence and the box holds them all; otherwise it holds all the water-resource positions; it is ordered; each case has its source string |
| Geometry.ExtentIgnoresFallback | geo_reference_pipeline/lambda_functions/analysis_lambda/analysis_handler.py:324-326 | once a map-level position resolved, the water-resource positions do not affect the box |
| Geometry.BoundaryPart | geo_reference_pipeline/lambda_functions/analysis_lambda/analysis_handler.py:356-368 | there is one boundary feature when there is a box and none otherwise |
| Geometry.PointsAfter | geo_reference_pipeline/lambda_functions/analysis_lambda/analysis_handler.py:369 | `extend` keeps the points after what was already there, in order |
| Geometry.FeatureOrder | geo_reference_pipeline/lambda_functions/analysis_lambda/analysis_handler.py:355-373 | the collection has as many features as points, plus one when there is a box, and after the boundary come the points in order |
| Geometry.BoundaryFirst | geo_reference_pipeline/lambda_functions/analysis_lambda/analysis_handler.py:356-368 | with a box, the first feature is "Map Boundary", with its ring, its source, and the normalised map-level strings |
| Metadata.SpatialCoverageJoin | geo_reference_pipeline/lambda_functions/analysis_lambda/analysis_handler.py:387-394 | the four cases are one "; " join of the county (when present) followed by the labels |
| Metadata.SpatialCoverageContains | geo_reference_pipeline/lambda_functions/analysis_lambda/analysis_handler.py:387-394 | the spatial coverage names the county and every label, and it is empty only when the county and every label are |
| Metadata.DescriptionContains | geo_reference_pipeline/lambda_functions/analysis_lambda/analysis_handler.py:396 | the description is empty exactly when there are no labels, and it names every label |
| Metadata.CellOfUniform | geo_reference_pipeline/lambda_functions/analysis_lambda/analysis_handler.py:398-472 | in a row whose every cell depends only on its column name, each column reads as that cell, and any other name as nothing |
| Metadata.RowColumns | geo_reference_pipeline/lambda_functions/analysis_lambda/analysis_handler.py:398-472 | the row has exactly the fixed columns, in their order, and there are 73 |
| Metadata.RowLookup | geo_reference_pipeline/lambda_functions/analysis_lambda/analysis_handler.py:398-472 | each fixed column of the row gives its cell, and any other name gives nothing |
| Metadata.RowNames | geo_reference_pipeline/lambda_functions/analysis_lambda/analysis_handler.py:398-472 | "Title*" is the image name without its extension; "File Name" is the whole image name |
| Metadata.RowPosition | geo_reference_pipeline/lambda_functions/analysis_lambda/analysis_handler.py:413-415 | Latitude and Longitude are the centre's numbers when there is a box and empty strings otherwise; Bounding Box is the envelope string |
| Metadata.RowTexts | geo_reference_pipeline/lambda_functions/analysis_lambda/analysis_handler.py:410-416 | Coverage, Spatial Coverage, External Reference and Description carry the map description, the coverage string, the GitHub URL and the description |
| Metadata.BlankCell | geo_reference_pipeline/lambda_functions/analysis_lambda/analysis_handler.py:400-470 | a column the handler does not fill gets an empty string |
| Metadata.RowBlanks | geo_reference_pipeline/lambda_functions/analysis_lambda/analysis_handler.py:400-470 | every fixed column that the handler does not fill reads as an empty string in the row |
| Metadata.AppendRowSpec | geo_reference_pipeline/lambda_functions/analysis_lambda/analysis_handler.py:476-487 | the table written is the rows read, unchanged, followed by exactly one more, the new row; a missing or unreadable table gives the new row alone |
| Metadata.GeoJsonNameOf | geo_reference_pipeline/lambda_functions/analysis_lambda/analysis_handler.py:377 | the GeoJSON file of `b.ext` is `b.geojson`, and that of a dotless name is the name followed by ".geojson" |
| Analysis.Analyse | geo_reference_pipeline/lambda_functions/analysis_lambda/analysis_handler.py:246-396 | the handler's steps run in sequence and give the assembled analysis |
| Analysis.AssembledStages | geo_reference_pipeline/lambda_functions/analysis_lambda/analysis_handler.py:246-384 | the analysis fails exactly when the GitHub upload raises, and then with its exception; otherwise it is made of the normalised strings, the map-level positions, the water stage, the box, the features and the URL |
| Analysis.AssembledFeatures | geo_reference_pipeline/lambda_functions/analysis_lambda/analysis_handler.py:323-373 | the uploaded collection has a boundary exactly when some position was found, and then the placed resources' points in order |
| Analysis.CollectionShape | geo_reference_pipeline/lambda_functions/analysis_lambda/analysis_handler.py:323-373 | the shape of any collection built from its positions: a boundary exactly when some position is known, then the points in order |
| Analysis.AssembledLists | geo_reference_pipeline/lambda_functions/analysis_lambda/analysis_handler.py:252-320 | one normalised string per map-level string, each mentioning a section, and one label per water resource |
| Analysis.AssembledFields | geo_reference_pipeline/lambda_functions/analysis_lambda/analysis_handler.py:377-416 | the GeoJSON name, the image name, the map description, the URL, the centre (inside the box) and the envelope when there is a box, and nothing otherwise; the coverage and description name every resource |
| Analysis.HandleImage | geo_reference_pipeline/lambda_functions/analysis_lambda/analysis_handler.py:221-517 | one invocation: a failed reply, a failed upload or a failed table write ends in the error record, and otherwise it completes |
| Analysis.RespondOutcome | geo_reference_pipeline/lambda_functions/analysis_lambda/analysis_handler.py:476-517 | the handler completes exactly when the analysis finished and the table write succeeded, and then reports `s3://bucket/analysis/dublin core metadata analysis file.csv`; otherwise its error record is under the error folder, with a message naming the object |
| Analysis.RespondRow | geo_reference_pipeline/lambda_functions/analysis_lambda/analysis_handler.py:398-496 | a completed invocation's row has the fixed columns, with title and file name from the image name, and the table written is the one read followed by the row |
| Analysis.HandleReplyFailure | geo_reference_pipeline/lambda_functions/analysis_lambda/analysis_handler.py:506-514 | when the reply could not be had or parsed, the only outcome is the error record, under `errorFolder/<stem>.txt`, naming the object and the exception |
| Analysis.HandleNames | geo_reference_pipeline/lambda_functions/analysis_lambda/analysis_handler.py:377 | for the object `dir/b.ext`, the image name is `b.ext`, the GeoJSON file is `b.geojson`, and a failure is recorded under `errorFolder/b.txt` |
| Compressor.FloorOf | geo_reference_pipeline/lambda_functions/compress_lambda/compression_handler.py:25-26 | `int(x)` of a non-negative x is the whole number m with m ≤ x < m + 1 |
| Compressor.IntervalWithin | geo_reference_pipeline/lambda_functions/compress_lambda/compression_handler.py:20-38 | through every step, 0.1 ≤ low < high ≤ 1.0 |
| Compressor.HalvedPow2 | geo_reference_pipeline/lambda_functions/compress_lambda/compression_handler.py:24 | halving k times and doubling k times cancel |
| Compressor.IntervalWidth | geo_reference_pipeline/lambda_functions/compress_lambda/compression_handler.py:24-38 | each step halves the interval |
| Compressor.ProbeWithin | geo_reference_pipeline/lambda_functions/compress_lambda/compression_handler.py:24 | every midpoint tried lies strictly inside its interval, and so strictly inside (0.1, 1.0) |
| Compressor.IntervalNarrows | geo_reference_pipeline/lambda_functions/compress_lambda/compression_handler.py:34-38 | `low` never decreases and `high` never increases |
| Compressor.AcceptedBelowRejected | geo_reference_pipeline/lambda_functions/compress_lambda/compression_handler.py:34-38 | every accepted scale is below every rejected scale |
| Compressor.AcceptedIncrease | geo_reference_pipeline/lambda_functions/compress_lambda/compression_handler.py:34-36 | accepted scales increase from step to step |
| Compressor.LastAccepted | geo_reference_pipeline/lambda_functions/compress_lambda/compression_handler.py:34-35 | the step whose image `best_img` holds was accepted, and no later step was |
| Compressor.LastAcceptedNext | geo_reference_pipeline/lambda_functions/compress_lambda/compression_handler.py:34-35 | one more step becomes the kept one exactly when it is accepted |
| Compressor.BisectionStep | geo_reference_pipeline/lambda_functions/compress_lambda/compression_handler.py:24-38 | one step replaces `low` by an accepted midpoint or `high` by a rejected one, and keeps the image of an accepted one |
| Compressor.Bisection | geo_reference_pipeline/lambda_functions/compress_lambda/compression_handler.py:20-40 | the loop runs n steps and returns the image of the last accepted step, or the original when none was accepted, or fails when a resize is refused |
| Compressor.SearchSteps | geo_reference_pipeline/lambda_functions/compress_lambda/compression_handler.py:23-27 | exactly 8 steps, each trying a scale strictly inside (0.1, 1.0) |
| Compressor.OptimizeImageSize | geo_reference_pipeline/lambda_functions/compress_lambda/compression_handler.py:13-40 | the search over [0.1, 1.0]; its result does not depend on the `initial_scale` argument |
| Compressor.SearchStepsHalve | geo_reference_pipeline/lambda_functions/compress_lambda/compression_handler.py:20-24 | the first interval is [0.1, 1.0]; every step tries the midpoint; every interval stays within [0.1, 1.0]; step k's width is 0.9 halved k times |
| Compressor.ProbeAbove | geo_reference_pipeline/lambda_functions/compress_lambda/compression_handler.py:20-24 | in a bisection of n steps, every scale tried is at least `low` plus the starting width halved n times |
| Compressor.EightHalvings | geo_reference_pipeline/lambda_functions/compress_lambda/compression_handler.py:20-24 | the interval [0.1, 1.0] halved eight times has width 0.9/256 |
| Compressor.SmallestScale | geo_reference_pipeline/lambda_functions/compress_lambda/compression_handler.py:20-24 | every scale the search tries is at least 0.1 + 0.9/2^8, so 0.1 itself is never tried |
| Compressor.SearchStepsAcceptance | geo_reference_pipeline/lambda_functions/compress_lambda/compression_handler.py:18-34 | a scale is accepted exactly when its `int(w*mid)` by `int(h*mid)` candidate can be made and encodes to at most `target_size_mb * 1024 * 1024` bytes |
| Compressor.SearchStepsNarrow | geo_reference_pipeline/lambda_functions/compress_lambda/compression_handler.py:34-38 | across the eight steps, `low` never decreases and `high` never increases |
| Compressor.SearchStepsFollow | geo_reference_pipeline/lambda_functions/compress_lambda/compression_handler.py:34-38 | an accepted midpoint becomes the next `low`, any other the next `high` |
| Compressor.SearchFailure | geo_reference_pipeline/lambda_functions/compress_lambda/compression_handler.py:25-27 | the search raises exactly when some step resizes to a zero width or height |
| Compressor.SearchKeepsLastFit | geo_reference_pipeline/lambda_functions/compress_lambda/compression_handler.py:23-40 | the result is the original when no step was accepted; otherwise it is the candidate of an accepted step that fits the target, whose scale is the largest accepted and below every rejected one |
| Compressor.LastFitKept | geo_reference_pipeline/lambda_functions/compress_lambda/compression_handler.py:34-40 | when some step was accepted, the result is the candidate of the last accepted step, which fits, with the largest accepted scale |
| Compressor.LastStepLargest | geo_reference_pipeline/lambda_functions/compress_lambda/compression_handler.py:34-38 | the last accepted of the eight steps has the largest accepted scale, below every rejected one |
| Compressor.LastAcceptedIsLargest | geo_reference_pipeline/lambda_functions/compress_lambda/compression_handler.py:34-38 | the last accepted step of any bisection has the largest accepted scale, below every rejected one |
| Compressor.EstimateRatio | geo_reference_pipeline/lambda_functions/compress_lambda/compression_handler.py:60 | the ratio times the initial size is the target |
| Compressor.ConvertToPng | geo_reference_pipeline/lambda_functions/compress_lambda/compression_handler.py:47-67 | the conversion: short-circuit, then the errors of the estimate and of the search, or the search's image with its own size |
| Compressor.SizeWithinTarget | geo_reference_pipeline/lambda_functions/compress_lambda/compression_handler.py:54-56 | megabytes within the target are exactly bytes within `target_bytes` |
| Compressor.ConversionSpec | geo_reference_pipeline/lambda_functions/compress_lambda/compression_handler.py:52-67 | an image within the target comes back unchanged with its own size; a converted image is reported with its own size, is no larger than the original in either dimension, and is within the target unless it is the original |
| Compressor.CandidateShrinks | geo_reference_pipeline/lambda_functions/compress_lambda/compression_handler.py:25-26 | a candidate for a scale within [0, 1] is no larger than the image |
| Compressor.ScaledShrinks | geo_reference_pipeline/lambda_functions/compress_lambda/compression_handler.py:25-26 | `int(n * scale)` ≤ n for a scale within [0, 1] |
| Compressor.OverTargetFallback | geo_reference_pipeline/lambda_functions/compress_lambda/compression_handler.py:40-67 | when no step fits and none resizes to nothing, the conversion returns the original image, still over the target |
| Compressor.HandleRecord | geo_reference_pipeline/lambda_functions/compress_lambda/compression_handler.py:86-124 | the writes of one record: none for a non-TIFF key; otherwise an upload of the conversion under the output key, or an error record when fetching, converting or uploading raises |
| Compressor.HandleRecords | geo_reference_pipeline/lambda_functions/compress_lambda/compression_handler.py:85-124 | the record loop makes the writes of every record, in record order |
| Compressor.AllWritesAppend | geo_reference_pipeline/lambda_functions/compress_lambda/compression_handler.py:85 | the writes of two runs of records are those of the first followed by those of the second |
| Compressor.TiffCount | geo_reference_pipeline/lambda_functions/compress_lambda/compression_handler.py:91 | the number of TIFF keys is at most the number of keys |
| Compressor.KeyWritesRouted | geo_reference_pipeline/lambda_functions/compress_lambda/compression_handler.py:91-124 | a non-TIFF key makes no write and a TIFF key exactly one: an upload under its output key, or an error record under its error key with a message naming the key |
| Compressor.AllWritesRouted | geo_reference_pipeline/lambda_functions/compress_lambda/compression_handler.py:85-124 | over a run of records, there is one write per TIFF key, each routed by the key it came from |
| Compressor.WritesPerTiffKey | geo_reference_pipeline/lambda_functions/compress_lambda/compression_handler.py:85-124 | the handler makes exactly one write per TIFF key and none for any other key; each goes to the output key or the error key of its record |
| Compressor.KeyRoute | geo_reference_pipeline/lambda_functions/compress_lambda/compression_handler.py:91-123 | `dir/b.ext` with ".tif" or ".tiff" in any case is processed; its PNG is `compressed/b.png` and its error record `error/b.txt` |
| Compressor.UploadedConversion | geo_reference_pipeline/lambda_functions/compress_lambda/compression_handler.py:98-111 | an uploaded PNG is the conversion of the fetched image: reported with its own size, no larger than the fetched image, within the target unless it is the fetched image, and that image itself when it was already within the target |

## Left out

- The Bedrock call, `json.loads` of its reply, and the prompt text. The
  reply arrives already parsed as an `Extraction`, or as the exception that
  getting or parsing it raised. Values of the wrong JSON type (a number where
  a string is expected, a string instead of a list) are not modelled.
- The SOAP request, its XML parsing, and Nominatim. Both services are
  `Option` oracles. `get_coordinates_from_township` returns `None` on any
  error and the geocoding exception is caught, so an oracle cannot raise.
  The precision, score and uncertainty fields of a SOAP result are not used
  by the core and are left out. So is a hang: the SOAP `requests.post` has
  no timeout, and an oracle always answers.
- GitHub internals. The upload is an oracle that gives the file's URL or
  raises. The GeoJSON text itself (`json.dumps(..., indent=2)`) is not
  produced; the model keeps the features as values.
- S3: downloads, `/tmp` files, base64, and `put_object`. Fetching a TIFF
  and writing the table back are oracles. The compressor's fetch is keyed by
  object key alone, so the source bucket is not modelled.
- pandas. The table is a sequence of rows. Two things are not modelled:
  `pd.concat` taking the union of columns when a stored table has other
  columns, and the CSV text itself, including how read_csv re-types the
  cells it reads back.
- How a float is written in the envelope string. It is a parameter `show`,
  and `Geometry.EnvelopeRoundTrip` requires a writer that writes the box's
  four numbers without commas and a reader that reads them back. IEEE
  rounding of the centre, the megabyte sizes, the scale midpoints and
  `int(width * mid)` is not modelled; all are exact reals.
- `Compressor.EstimateRatio`: computes `target / initial` but not its square
  root. The square root only feeds `initial_scale`, which does not affect
  the result.
- PIL: decoding, `convert('RGB')`, LANCZOS resampling and PNG encoding. An
  image is its dimensions, and the encoded size is an oracle over them.
- Environment defaults ("compressed", "error", "analysis", "3") and the
  parsing of `COMPRESSION_TARGET_MB`. They are the `Settings` and `Folders`
  parameters.
- Logging and `print`.
- The status-code dictionaries of the analysis handler's return value. The
  model returns `Completed` with the CSV location, or the error record.
- The analysis handler reads only `Records[0]`. A missing record, which
  makes the `except` clause itself raise because `object_key` is unbound, is
  not modelled.
- `Text.Lower`: lower-cases ASCII letters only. For the `.tif`/`.tiff` test
  this makes no difference, since no other character lowers to a string
  ending in one of those letters. Other case mappings, which can change a
  string's length, are not modelled.
- HandleRecords and WritesPerTiffKey: assume that writing an error record
  succeeds and that every record carries `s3.bucket.name` and
  `s3.object.key`. In the source, a `put_object` of an error record that
  raises (compression_handler.py:121-125), or a record missing those fields
  (:86-88), raises out of `lambda_handler`. The remaining records then get
  no write at all, so when that happens there is not one write per TIFF key.
- Handle and HandleImage: assume that writing the error record succeeds. In
  the source, a `put_object` that raises inside the `except` clause
  (analysis_handler.py:510-514) escapes the handler, and nothing is
  recorded.
- Concurrent invocations racing on the read-modify-write of the table. The
  model covers one invocation.
