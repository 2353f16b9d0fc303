/**
  The text fields and the metadata row of the analysis handler
  (analysis_lambda/analysis_handler.py): the spatial-coverage string, the
  description sentence, the fixed columns of the Dublin Core row, the
  cumulative table the row is appended to, and the GeoJSON file name.
 */
module Metadata {
  import opened Wrappers
  import opened Text
  import opened Seqs
  import opened Paths
  import opened Resolution

  /** The separators and the framing of the two text fields. */
  const CoverageSeparator: string := "; "
  const DescriptionOpen: string := "This item includes: "
  const DescriptionSeparator: string := ", "
  const DescriptionClose: string := "."

  /**
    `spatial_coverage`: the county and the water-feature labels joined by
    "; ", whichever of them there are, and empty when there are none.
   */
  function SpatialCoverage(county: string, labels: seq<string>): string {
    if county != [] && labels != [] then county + CoverageSeparator + Join(CoverageSeparator, labels)
    else if county != [] then county
    else if labels != [] then Join(CoverageSeparator, labels)
    else []
  }

  /** The four cases are one join: of the county, when there is one, followed by the labels. */
  lemma SpatialCoverageJoin(county: string, labels: seq<string>)
    ensures SpatialCoverage(county, labels) == Join(CoverageSeparator, (if county != [] then [county] else []) + labels)
  {
    if county != [] && labels != [] {
      JoinCons(CoverageSeparator, county, labels);
    } else if county != [] {
      assert [county] + labels == [county];
    } else {
      assert [] + labels == labels;
    }
  }

  /** The spatial coverage names the county and every label, and is empty only when there is neither. */
  lemma SpatialCoverageContains(county: string, labels: seq<string>)
    ensures county != [] ==> Contains(SpatialCoverage(county, labels), county)
    ensures forall j | 0 <= j < |labels| :: Contains(SpatialCoverage(county, labels), labels[j])
    ensures SpatialCoverage(county, labels) == [] ==> county == [] && forall j | 0 <= j < |labels| :: labels[j] == []
  {
    var parts := (if county != [] then [county] else []) + labels;
    var k := if county != [] then 1 else 0;
    SpatialCoverageJoin(county, labels);
    if county != [] {
      JoinContains(CoverageSeparator, parts, 0);
    }
    forall j | 0 <= j < |labels| ensures Contains(SpatialCoverage(county, labels), labels[j]) {
      assert parts[j + k] == labels[j];
      JoinContains(CoverageSeparator, parts, j + k);
    }
  }

  /**
    `description_csv`: "This item includes: " and the labels joined by ", ",
    closed by a full stop; empty when there are no labels.
   */
  function Description(labels: seq<string>): string {
    if labels != [] then DescriptionOpen + Join(DescriptionSeparator, labels) + DescriptionClose else []
  }

  /** The description is empty exactly when there are no labels, and it names every label. */
  lemma DescriptionContains(labels: seq<string>)
    ensures Description(labels) == [] <==> labels == []
    ensures forall j | 0 <= j < |labels| :: Contains(Description(labels), labels[j])
  {
    forall j | 0 <= j < |labels| ensures Contains(Description(labels), labels[j]) {
      JoinContains(DescriptionSeparator, labels, j);
      ContainsWithin(DescriptionOpen, Join(DescriptionSeparator, labels), DescriptionClose, labels[j]);
    }
  }

  /** A value of the row: a string, or a number for the centre's coordinates. */
  datatype Cell = Text(text: string) | Number(number: real)

  /** A row of the table: its cells, under their column names, in column order. */
  type Row = seq<(string, Cell)>

  /** The names of the columns the handler fills in. */
  const TitleColumn: string := "Title*"
  const CoverageColumn: string := "Coverage"
  const SpatialCoverageColumn: string := "Spatial Coverage"
  const LatitudeColumn: string := "Latitude"
  const LongitudeColumn: string := "Longitude"
  const BoundingBoxColumn: string := "Bounding Box"
  const ExternalReferenceColumn: string := "External Reference"
  const DescriptionColumn: string := "Description"
  const FileNameColumn: string := "File Name"

  /**
    The columns of the Dublin Core metadata row, in order: the title, the
    credits, the coverage and position columns, the thesis and date
    columns, the description, the remaining catalogue columns, and the file
    name.
   */
  const Columns: seq<string> :=
    [TitleColumn] + CreditColumns
    + [CoverageColumn, SpatialCoverageColumn, "Temporal Coverage",
       LatitudeColumn, LongitudeColumn, BoundingBoxColumn, ExternalReferenceColumn]
    + ThesisAndDateColumns + [DescriptionColumn] + CatalogueColumns + [FileNameColumn]

  const CreditColumns: seq<string> := [
    "Alternate Title", "Creator*", "Contributor", "Artist", "Author", "Composer", "Editor",
    "Lyricist", "Producer", "Publisher"
  ]

  const ThesisAndDateColumns: seq<string> := [
    "Advisor", "Committee Member", "Degree Name", "Degree Level", "Department", "University",
    "Date*", "Date Created", "Date Issued", "Date Recorded", "Date Submitted", "Date Search*"
  ]

  const CatalogueColumns: seq<string> := [
    "Abstract", "Award", "Frequency", "Sponsorship", "Table of Contents", "Subject",
    "LCSH Subject*", "Language", "Language-ISO", "Format", "Medium*", "Extent", "Type*", "Source",
    "Digital Collection*", "Physical Collection*", "Series/Location*", "Subcollection",
    "Repository*", "Rights*", "Rights Note", "Rights License", "Rights URI", "Rights DPLA*",
    "Identifier", "Citation", "DOI", "ISBN", "URI", "Related Resource*", "Relation-Has Format Of",
    "Relation-Has Part", "Relation-Has Version", "Relation-Is Format Of",
    "Relation-Is Referenced By", "Relation-Is Replaced By", "Relation-Is Version Of",
    "Relation-References", "Relation-Replaces", "Transcript", "Path"
  ]

  /** The columns the handler fills in; all the others are left empty. */
  const Filled: set<string> := {
    TitleColumn, CoverageColumn, SpatialCoverageColumn, LatitudeColumn, LongitudeColumn,
    BoundingBoxColumn, ExternalReferenceColumn, DescriptionColumn, FileNameColumn
  }

  /** What the row is made from. */
  datatype RowFields = RowFields(
    imageName: string, mapDescription: string, spatialCoverage: string,
    centre: Option<Coord>, boundingBox: string, externalReference: string, description: string)

  /** The cell the handler puts under column `name`. */
  function CellFor(f: RowFields, name: string): Cell {
    if name == TitleColumn then Text(Stem(f.imageName))
    else if name == CoverageColumn then Text(f.mapDescription)
    else if name == SpatialCoverageColumn then Text(f.spatialCoverage)
    else if name == LatitudeColumn then (if f.centre.Some? then Number(f.centre.value.latitude) else Text([]))
    else if name == LongitudeColumn then (if f.centre.Some? then Number(f.centre.value.longitude) else Text([]))
    else if name == BoundingBoxColumn then Text(f.boundingBox)
    else if name == ExternalReferenceColumn then Text(f.externalReference)
    else if name == DescriptionColumn then Text(f.description)
    else if name == FileNameColumn then Text(f.imageName)
    else Text([])
  }

  /** `csv_row`: every column with its cell. */
  function MetadataRow(f: RowFields): Row {
    Map((name: string) => (name, CellFor(f, name)), Columns)
  }

  /** Reading a column of a row: the first cell under that name, if any. */
  function CellOf(row: Row, name: string): Option<Cell> {
    if row == [] then None
    else if row[0].0 == name then Some(row[0].1)
    else CellOf(row[1..], name)
  }

  /** The column names of a row, in order. */
  function Names(row: Row): seq<string> {
    Map((e: (string, Cell)) => e.0, row)
  }

  /** In a row whose every cell is a function of its column name, each column reads as that function. */
  lemma {:induction false} CellOfUniform(row: Row, g: string -> Cell, name: string)
    requires forall i | 0 <= i < |row| :: row[i].1 == g(row[i].0)
    ensures CellOf(row, name) == if name in Names(row) then Some(g(name)) else None
  {
    if row != [] {
      CellOfUniform(row[1..], g, name);
      assert Names(row) == [row[0].0] + Names(row[1..]);
    }
  }

  /** The row has exactly the fixed columns, in their order, and 73 of them. */
  lemma RowColumns(f: RowFields)
    ensures Names(MetadataRow(f)) == Columns
    ensures |Columns| == 73
  {
  }

  /** Reading the row: each fixed column gives its cell, and any other name gives nothing. */
  lemma RowLookup(f: RowFields, name: string)
    ensures CellOf(MetadataRow(f), name) == if name in Columns then Some(CellFor(f, name)) else None
  {
    RowColumns(f);
    CellOfUniform(MetadataRow(f), name => CellFor(f, name), name);
  }

  /** "Title*" is the image name without its extension, and "File Name" the whole image name. */
  lemma RowNames(f: RowFields)
    ensures CellOf(MetadataRow(f), TitleColumn) == Some(Text(Stem(f.imageName)))
    ensures CellOf(MetadataRow(f), FileNameColumn) == Some(Text(f.imageName))
  {
    RowLookup(f, TitleColumn);
    RowLookup(f, FileNameColumn);
  }

  /**
    The centre's latitude and longitude are numbers when there is a box and
    empty strings otherwise; the bounding box is its envelope string.
   */
  lemma RowPosition(f: RowFields)
    ensures CellOf(MetadataRow(f), LatitudeColumn) == Some(if f.centre.Some? then Number(f.centre.value.latitude) else Text([]))
    ensures CellOf(MetadataRow(f), LongitudeColumn) == Some(if f.centre.Some? then Number(f.centre.value.longitude) else Text([]))
    ensures CellOf(MetadataRow(f), BoundingBoxColumn) == Some(Text(f.boundingBox))
  {
    RowLookup(f, LatitudeColumn);
    RowLookup(f, LongitudeColumn);
    RowLookup(f, BoundingBoxColumn);
  }

  /** The coverage, spatial coverage, external reference and description columns carry their fields. */
  lemma RowTexts(f: RowFields)
    ensures CellOf(MetadataRow(f), CoverageColumn) == Some(Text(f.mapDescription))
    ensures CellOf(MetadataRow(f), SpatialCoverageColumn) == Some(Text(f.spatialCoverage))
    ensures CellOf(MetadataRow(f), ExternalReferenceColumn) == Some(Text(f.externalReference))
    ensures CellOf(MetadataRow(f), DescriptionColumn) == Some(Text(f.description))
  {
    RowLookup(f, CoverageColumn);
    RowLookup(f, SpatialCoverageColumn);
    RowLookup(f, ExternalReferenceColumn);
    RowLookup(f, DescriptionColumn);
  }

  /** A column the handler does not fill gets an empty string. */
  lemma BlankCell(f: RowFields, name: string)
    requires name !in Filled
    ensures CellFor(f, name) == Text([])
  {
  }

  /** The columns the handler does not fill are empty strings. */
  lemma RowBlanks(f: RowFields, name: string)
    requires name in Columns && name !in Filled
    ensures CellOf(MetadataRow(f), name) == Some(Text([]))
  {
    RowLookup(f, name);
    BlankCell(f, name);
  }

  /** What reading the cumulative table from storage gave. */
  datatype Existing = Missing | Unreadable(reason: string) | Stored(rows: seq<Row>)

  /**
    The table written back: the stored rows followed by the new one, or the
    new row alone when there was no table or it could not be read.
   */
  function AppendRow(existing: Existing, row: Row): seq<Row> {
    match existing
    case Stored(rows) => rows + [row]
    case _ => [row]
  }

  /** The rows read before, unchanged, followed by exactly one more: the new row. */
  lemma AppendRowSpec(existing: Existing, row: Row)
    ensures var before := if existing.Stored? then existing.rows else [];
      var after := AppendRow(existing, row);
      && |after| == |before| + 1
      && after[..|before|] == before
      && after[|before|] == row
  {
  }

  /** The name of the table's object in the analysis folder. */
  const TableName: string := "dublin core metadata analysis file.csv"

  function TableKey(analysisFolder: string): string {
    analysisFolder + "/" + TableName
  }

  /** `geojson_file_name`: the image name without its extension, then ".geojson". */
  function GeoJsonName(imageName: string): string {
    Stem(imageName) + ".geojson"
  }

  /**
    For an image `b.ext` with a one-dot extension the GeoJSON file is
    `b.geojson`, and for an image name without a dot it is the name
    followed by ".geojson"; in both cases it shares its stem with the
    row's title.
   */
  lemma GeoJsonNameOf(b: string, ext: string)
    requires '/' !in b && HasNonDot(b, 0, |b|)
    requires |ext| > 0 && ext[0] == '.' && '.' !in ext[1..] && '/' !in ext
    ensures GeoJsonName(b + ext) == b + ".geojson"
    ensures GeoJsonName(b) == b + ".geojson" <== '.' !in b
  {
    SplitExtOf(b, ext);
    if '.' !in b {
      SplitExtNoDot(b);
    }
  }
}
