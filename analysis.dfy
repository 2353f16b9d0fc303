/**
  One invocation of the analysis handler (analysis_lambda/analysis_handler.py)
  from the parsed reply of the vision model to the GeoJSON feature
  collection, the metadata row, the cumulative table and the response.

  What lies outside the decision logic is a parameter: the reply of the
  model arrives already parsed (or as the exception that getting or parsing
  it raised), the two lookup services are `Option` oracles, the GitHub
  upload gives the file's URL or raises, writing the table back may raise,
  and how a float is written is a function `show`.
 */
module Analysis {
  import opened Wrappers
  import opened Text
  import opened Paths
  import opened Resolution
  import opened Geometry
  import opened Metadata

  /** The parsed reply of the model; a key the reply leaves out is empty. */
  datatype Extraction = Extraction(
    mapDescription: string, townshipRanges: seq<string>, county: string,
    waterResources: seq<WaterResource>)

  /** `upload_to_github` of the GeoJSON under a file name: the file's URL, or the exception raised. */
  type Publisher = (string, seq<Feature>) -> Outcome<string>

  /** `put_object` of the table under a key: the exception raised, if any. */
  type TableStore = (string, seq<Row>) -> Option<string>

  /** The services the handler calls, and how it writes a float. */
  datatype Services = Services(
    lookup: TownshipLookup, geocode: Geocoder, publish: Publisher,
    save: TableStore, show: real -> string)

  /** The bucket and the folders the handler writes to, from its environment. */
  datatype Folders = Folders(bucket: string, errorFolder: string, analysisFolder: string)

  /** Everything one analysis produces before the table is touched. */
  datatype Analysis = Analysis(
    updated: seq<string>, fixes: seq<TownshipFix>, stage: WaterStage, extent: Extent,
    features: seq<Feature>, geojsonName: string, url: string, fields: RowFields)

  /** `center_lat`, `center_lon`: the centre of the box, when there is one. */
  function CentreOf(x: Extent): Option<Coord> {
    if x.box.Some? then Some(Centre(x.box.value)) else None
  }

  /** `bounding_box_str`: the envelope of the box, or empty when there is none. */
  function BoundingBoxText(x: Extent, show: real -> string): string {
    if x.box.Some? then EnvelopeString(x.box.value, show) else []
  }

  /** The fields of the metadata row. */
  function FieldsOf(imageName: string, e: Extraction, stage: WaterStage, x: Extent, url: string, show: real -> string): RowFields {
    RowFields(imageName, e.mapDescription, SpatialCoverage(e.county, stage.labels),
      CentreOf(x), BoundingBoxText(x, show), url, Description(stage.labels))
  }

  /**
    The analysis of one image from its extraction: normalise and resolve
    the map-level strings, place the water resources, take the box, build
    the features, upload them, and gather the row's fields.
   */
  function Assemble(imageName: string, e: Extraction, s: Services): Outcome<Analysis> {
    var updated := NormalisedTownships(e.townshipRanges);
    var fixes := MapFixes(updated, s.lookup);
    var stage := WaterStageOf(e.waterResources, s.lookup, s.geocode);
    var x := ExtentOf(fixes, stage.coords);
    var features := Features(x, updated, stage.points);
    var name := GeoJsonName(imageName);
    match s.publish(name, features)
    case Failed(reason) => Failed(reason)
    case Done(url) =>
      Done(Analysis(updated, fixes, stage, x, features, name, url, FieldsOf(imageName, e, stage, x, url, s.show)))
  }

  /** The body of the handler's `try` block, from the extraction to the upload. */
  method Analyse(imageName: string, e: Extraction, s: Services) returns (out: Outcome<Analysis>)
    ensures out == Assemble(imageName, e, s)
  {
    var updated := NormaliseMapTownships(e.townshipRanges);
    var fixes := ResolveMapTownships(updated, s.lookup);
    var stage := ResolveWaterResources(e.waterResources, s.lookup, s.geocode);
    var x := ExtentOf(fixes, stage.coords);
    var features := Features(x, updated, stage.points);
    var name := GeoJsonName(imageName);
    var published := s.publish(name, features);
    if published.Failed? {
      return Failed(published.reason);
    }
    var url := published.value;
    out := Done(Analysis(updated, fixes, stage, x, features, name, url, FieldsOf(imageName, e, stage, x, url, s.show)));
  }

  /**
    A finished analysis is the stages of the model applied one after
    another, and it exists exactly when the upload of its features
    succeeded.
   */
  lemma AssembledStages(imageName: string, e: Extraction, s: Services)
    ensures var updated := NormalisedTownships(e.townshipRanges);
      var stage := WaterStageOf(e.waterResources, s.lookup, s.geocode);
      var x := ExtentOf(MapFixes(updated, s.lookup), stage.coords);
      var published := s.publish(GeoJsonName(imageName), Features(x, updated, stage.points));
      && (Assemble(imageName, e, s).Failed? <==> published.Failed?)
      && (published.Failed? ==> Assemble(imageName, e, s) == Failed(published.reason))
      && (Assemble(imageName, e, s).Done? ==>
            var a := Assemble(imageName, e, s).value;
            && a.updated == updated
            && a.fixes == MapFixes(updated, s.lookup)
            && a.stage == stage
            && a.extent == x
            && a.features == Features(x, updated, stage.points)
            && a.url == published.value)
  {
  }

  /**
    The uploaded collection: the boundary of the box when some position is
    known, then one point per placed water resource, in order.
   */
  lemma AssembledFeatures(imageName: string, e: Extraction, s: Services, a: Analysis)
    requires Assemble(imageName, e, s) == Done(a)
    ensures var k := if a.extent.box.Some? then 1 else 0;
      && (a.extent.box.Some? <==> a.fixes != [] || a.stage.coords != [])
      && |a.features| == |a.stage.points| + k
      && (forall j | k <= j < |a.features| :: a.features[j] == PointFeature(a.stage.points[j - k]))
  {
    AssembledStages(imageName, e, s);
    CollectionShape(a);
  }

  /** The shape of the collection of any analysis whose box and features were built from its positions. */
  lemma CollectionShape(a: Analysis)
    requires a.extent == ExtentOf(a.fixes, a.stage.coords)
    requires a.features == Features(a.extent, a.updated, a.stage.points)
    ensures var k := if a.extent.box.Some? then 1 else 0;
      && (a.extent.box.Some? <==> a.fixes != [] || a.stage.coords != [])
      && |a.features| == |a.stage.points| + k
      && (forall j | k <= j < |a.features| :: a.features[j] == PointFeature(a.stage.points[j - k]))
  {
    ExtentBasis(a.fixes, a.stage.coords);
    FeatureOrder(a.extent, a.updated, a.stage.points);
  }

  /** Every map-level string is kept, normalised so that it mentions a section, and one label is kept per resource. */
  lemma AssembledLists(imageName: string, e: Extraction, s: Services, a: Analysis)
    requires Assemble(imageName, e, s) == Done(a)
    ensures |a.updated| == |e.townshipRanges|
    ensures forall i | 0 <= i < |a.updated| :: Contains(a.updated[i], SectionMarker)
    ensures |a.stage.labels| == |e.waterResources|
  {
    AssembledStages(imageName, e, s);
    NormalisedTownshipsHaveSection(e.townshipRanges);
  }

  /**
    The row's fields: the image name, the map's description, the centre of
    the box (which lies inside it) and its envelope when there is a box and
    nothing otherwise, the file's URL, and a spatial coverage and a
    description that name every water resource.
   */
  lemma AssembledFields(imageName: string, e: Extraction, s: Services, a: Analysis)
    requires Assemble(imageName, e, s) == Done(a)
    ensures a.geojsonName == Stem(imageName) + ".geojson"
    ensures a.fields.imageName == imageName && a.fields.mapDescription == e.mapDescription
    ensures a.fields.externalReference == a.url
    ensures a.extent.box.Some? ==>
      && a.fields.centre == Some(Centre(a.extent.box.value))
      && Inside(a.extent.box.value, Centre(a.extent.box.value))
      && a.fields.boundingBox == EnvelopeString(a.extent.box.value, s.show)
    ensures a.extent.box.None? ==> a.fields.centre.None? && a.fields.boundingBox == []
    ensures a.fields.spatialCoverage == SpatialCoverage(e.county, a.stage.labels)
    ensures a.fields.description == Description(a.stage.labels)
    ensures forall j | 0 <= j < |a.stage.labels| ::
      Contains(a.fields.spatialCoverage, a.stage.labels[j]) && Contains(a.fields.description, a.stage.labels[j])
  {
    AssembledStages(imageName, e, s);
    ExtentBasis(a.fixes, a.stage.coords);
    if a.extent.box.Some? {
      CentreInside(a.extent.box.value);
    }
    SpatialCoverageContains(e.county, a.stage.labels);
    DescriptionContains(a.stage.labels);
  }

  /** What the handler ends in: the analysis, the row and the table, and where the table is; or the error record it writes. */
  datatype Response =
    | Completed(analysis: Analysis, row: Row, table: seq<Row>, csvLocation: string)
    | ErrorRecord(key: string, body: string)

  /** `f"Error processing image '{object_key}': {str(e)}"`. */
  function ErrorMessage(objectKey: string, reason: string): string {
    "Error processing image '" + objectKey + "': " + reason
  }

  /** `f"s3://{bucket_name}/{analysis_csv_key}"`. */
  function CsvLocation(f: Folders): string {
    "s3://" + f.bucket + "/" + TableKey(f.analysisFolder)
  }

  /** The error record of a failed invocation. */
  function Failure(objectKey: string, f: Folders, reason: string): Response {
    ErrorRecord(ErrorKey(f.errorFolder, objectKey), ErrorMessage(objectKey, reason))
  }

  /**
    The end of the handler's `try` block: build the row, append it to the
    table read, and write the table back.
   */
  function Respond(objectKey: string, f: Folders, analysed: Outcome<Analysis>, existing: Existing, save: TableStore): Response {
    match analysed
    case Failed(reason) => Failure(objectKey, f, reason)
    case Done(a) =>
      var row := MetadataRow(a.fields);
      var table := AppendRow(existing, row);
      var saved := save(TableKey(f.analysisFolder), table);
      if saved.Some? then Failure(objectKey, f, saved.value) else Completed(a, row, table, CsvLocation(f))
  }

  /**
    `lambda_handler` for the first record: analyse the image under
    `objectKey` and write the table back; whatever raises on the way ends
    in an error record under the error folder.
   */
  function Handle(objectKey: string, f: Folders, reply: Outcome<Extraction>, existing: Existing, s: Services): Response {
    match reply
    case Failed(reason) => Failure(objectKey, f, reason)
    case Done(e) => Respond(objectKey, f, Assemble(Basename(objectKey), e, s), existing, s.save)
  }

  /** The end of the handler's `try` block, and its `except` clause for what raises there. */
  method RespondTo(objectKey: string, f: Folders, analysed: Outcome<Analysis>, existing: Existing, save: TableStore)
    returns (response: Response)
    ensures response == Respond(objectKey, f, analysed, existing, save)
  {
    if analysed.Failed? {
      return Failure(objectKey, f, analysed.reason);
    }
    var row := MetadataRow(analysed.value.fields);
    var table := AppendRow(existing, row);
    var saved := save(TableKey(f.analysisFolder), table);
    if saved.Some? {
      response := Failure(objectKey, f, saved.value);
    } else {
      response := Completed(analysed.value, row, table, CsvLocation(f));
    }
  }

  /** The handler's `try` block and its `except` clause. */
  method HandleImage(objectKey: string, f: Folders, reply: Outcome<Extraction>, existing: Existing, s: Services)
    returns (response: Response)
    ensures response == Handle(objectKey, f, reply, existing, s)
  {
    if reply.Failed? {
      return Failure(objectKey, f, reply.reason);
    }
    var analysed := Analyse(Basename(objectKey), reply.value, s);
    response := RespondTo(objectKey, f, analysed, existing, s.save);
  }

  /**
    The handler's two endings. It completes exactly when the analysis
    finished and the table was written, and then it reports the table's
    location; otherwise its error record, under the error folder, names the
    object and the exception raised.
   */
  lemma RespondOutcome(objectKey: string, f: Folders, analysed: Outcome<Analysis>, existing: Existing, save: TableStore)
    ensures var r := Respond(objectKey, f, analysed, existing, save);
      && (r.Completed? <==>
            analysed.Done? && save(TableKey(f.analysisFolder), AppendRow(existing, MetadataRow(analysed.value.fields))).None?)
      && (r.Completed? ==>
            && r.analysis == analysed.value
            && r.csvLocation == "s3://" + f.bucket + "/" + f.analysisFolder + "/" + TableName)
      && (r.ErrorRecord? ==>
            && r.key == ErrorKey(f.errorFolder, objectKey)
            && exists reason :: r.body == ErrorMessage(objectKey, reason))
      && (analysed.Failed? ==> r == Failure(objectKey, f, analysed.reason))
  {
    var r := Respond(objectKey, f, analysed, existing, save);
    if r.ErrorRecord? {
      if analysed.Failed? {
        assert r.body == ErrorMessage(objectKey, analysed.reason);
      } else {
        var saved := save(TableKey(f.analysisFolder), AppendRow(existing, MetadataRow(analysed.value.fields)));
        assert r.body == ErrorMessage(objectKey, saved.value);
      }
    }
  }

  /**
    The row and the table of a completed invocation: the row is the
    analysis's fields under the fixed columns, its title is the image name
    without its extension and its file name the image name, and the table
    written is the one read with this row added at the end.
   */
  lemma RespondRow(objectKey: string, f: Folders, analysed: Outcome<Analysis>, existing: Existing, save: TableStore)
    requires Respond(objectKey, f, analysed, existing, save).Completed?
    ensures var r := Respond(objectKey, f, analysed, existing, save);
      var before := if existing.Stored? then existing.rows else [];
      && r.row == MetadataRow(analysed.value.fields)
      && Names(r.row) == Columns
      && CellOf(r.row, TitleColumn) == Some(Text(Stem(analysed.value.fields.imageName)))
      && CellOf(r.row, FileNameColumn) == Some(Text(analysed.value.fields.imageName))
      && r.table == before + [r.row]
      && save(TableKey(f.analysisFolder), r.table).None?
  {
    RowColumns(analysed.value.fields);
    RowNames(analysed.value.fields);
  }

  /** An invocation whose reply could not be had or parsed records that exception, and nothing else happens. */
  lemma HandleReplyFailure(objectKey: string, f: Folders, reply: Outcome<Extraction>, existing: Existing, s: Services)
    requires reply.Failed?
    ensures Handle(objectKey, f, reply, existing, s) == ErrorRecord(ErrorKey(f.errorFolder, objectKey), ErrorMessage(objectKey, reply.reason))
  {
  }

  /**
    For an object `dir/b.ext` with a one-dot extension, the row's title and
    the GeoJSON file are named after `b`, and a failure is recorded under
    `errorFolder/b.txt`.
   */
  lemma HandleNames(dir: string, b: string, ext: string, errorFolder: string)
    requires '/' !in b && HasNonDot(b, 0, |b|)
    requires |ext| > 0 && ext[0] == '.' && '.' !in ext[1..] && '/' !in ext
    ensures Basename(dir + "/" + b + ext) == b + ext
    ensures GeoJsonName(Basename(dir + "/" + b + ext)) == b + ".geojson"
    ensures ErrorKey(errorFolder, dir + "/" + b + ext) == errorFolder + "/" + b + ".txt"
  {
    BaseStem(dir, b, ext);
  }
}
