/** The sample-sheet writer of 02-at2/utils.py (`prepare_sample_sheet`): every
    row of the sample manifest gets five column rules applied, is projected to
    ten columns in a fixed order, and is written as one comma-separated line
    after the sheet's fixed header block. */
module SampleSheet {
  import opened Text
  import opened Dna

  datatype Option<T> = None | Some(value: T)

  /** One row of the manifest: the ten columns the sheet uses, all strings. */
  datatype Row = Row(
    sampleId: string,
    name: string,
    plate: string,
    species: string,
    index1Name: string,
    index1Sequence: string,
    index2Name: string,
    index2Sequence: string,
    project: string,
    nucleicAcid: string)

  /** The output columns, in the order they are written. */
  const Columns: seq<string> := [
    "SampleID", "Name", "Plate", "Species", "Index1Name",
    "Index1Sequence", "Index2Name", "Index2Sequence", "Project", "NucleicAcid"]

  /** The value of the column called `column` in `r`, or None for a column the row does not have. */
  function Column(r: Row, column: string): Option<string>
  {
    if column == "SampleID" then Some(r.sampleId)
    else if column == "Name" then Some(r.name)
    else if column == "Plate" then Some(r.plate)
    else if column == "Species" then Some(r.species)
    else if column == "Index1Name" then Some(r.index1Name)
    else if column == "Index1Sequence" then Some(r.index1Sequence)
    else if column == "Index2Name" then Some(r.index2Name)
    else if column == "Index2Sequence" then Some(r.index2Sequence)
    else if column == "Project" then Some(r.project)
    else if column == "NucleicAcid" then Some(r.nucleicAcid)
    else None
  }

  /** `row.loc[columns]`: the values of the named columns in the order named; None when
      one of them is missing (where the table library raises a key error). */
  function Select(r: Row, columns: seq<string>): (v: Option<seq<string>>)
    ensures v.Some? <==> forall i :: 0 <= i < |columns| ==> Column(r, columns[i]).Some?
    ensures v.Some? ==> |v.value| == |columns|
    ensures v.Some? ==> forall i :: 0 <= i < |columns| ==> v.value[i] == Column(r, columns[i]).value
  {
    if columns == [] then Some([])
    else
      match Column(r, columns[0])
      case None => None
      case Some(x) =>
        match Select(r, columns[1..])
        case None => None
        case Some(rest) => Some([x] + rest)
  }

  /** The row projected to the output columns: exactly ten fields, in the order of Columns. */
  function Fields(r: Row): (f: seq<string>)
    ensures f == [r.sampleId, r.name, r.plate, r.species, r.index1Name,
                  r.index1Sequence, r.index2Name, r.index2Sequence, r.project, r.nucleicAcid]
  {
    var v := Select(r, Columns);
    assert v.Some?;
    v.value
  }

  /** The five column rules: Species becomes "mm10", Project becomes `project`, Index2Sequence
      is reverse-complemented, NucleicAcid gets the suffix "-seq" and Plate is blanked. */
  function TransformRow(r: Row, project: string): (t: Row)
    ensures t.species == "mm10" && t.project == project && t.plate == ""
    ensures t.index2Sequence == ReverseTr(r.index2Sequence)
    ensures t.nucleicAcid == r.nucleicAcid + "-seq"
    ensures t.sampleId == r.sampleId && t.name == r.name
    ensures t.index1Name == r.index1Name && t.index1Sequence == r.index1Sequence
    ensures t.index2Name == r.index2Name
  {
    r.(species := "mm10",
       project := project,
       index2Sequence := ReverseTr(r.index2Sequence),
       nucleicAcid := r.nucleicAcid + "-seq",
       plate := "")
  }

  /** The rules applied to every row of the table. */
  function Transform(rows: seq<Row>, project: string): (t: seq<Row>)
    ensures |t| == |rows|
    ensures forall i :: 0 <= i < |rows| ==> t[i] == TransformRow(rows[i], project)
    ensures forall i :: 0 <= i < |rows| ==> t[i].project == project && t[i].species == "mm10" && t[i].plate == ""
    ensures forall i :: 0 <= i < |rows| ==> t[i].sampleId == rows[i].sampleId
  {
    seq(|rows|, i requires 0 <= i < |rows| => TransformRow(rows[i], project))
  }

  /** The CSV line of one row: its ten output fields joined by commas. */
  function RowLine(r: Row): string
  {
    Join(Fields(r), ',')
  }

  /** The data lines of the sheet, one per row. */
  function CsvLines(rows: seq<Row>): (lines: seq<string>)
    ensures |lines| == |rows|
  {
    seq(|rows|, i requires 0 <= i < |rows| => RowLine(rows[i]))
  }

  /** The table as headerless, index-free CSV text. */
  function Csv(rows: seq<Row>): string
  {
    Terminated(CsvLines(rows))
  }

  /** The lines of the fixed header block (02-at2/utils.py:5-24); the last is the column title row. */
  const HeaderLines: seq<string> := [
    "[Header],,,,,,,,,",
    "IEMFileVersion,1,,,,,,,,",
    "Investigator Name,Alexander Misharin,,,,,,,,",
    "Experiment Name,Aging_PF_ISRIB,,,,,,,,",
    "Date,,,,,,,,,",
    "Workflow,GenerateFASTQ,,,,,,,,",
    "Application,NextSeq FASTQ Only,,,,,,,,",
    "Assay,TruSeq HT,,,,,,,,",
    "Description,,,,,,,,,",
    "Chemistry,Amplicon,,,,,,,,",
    ",,,,,,,,,",
    "[Reads],,,,,,,,,",
    ",,,,,,,,,",
    ",,,,,,,,,",
    ",,,,,,,,,",
    "[Settings],,,,,,,,,",
    "Adapter,AGATCGGAAGAGCACACGTCTGAACTCCAGTCA,,,,,,,,",
    "AdapterRead2,AGATCGGAAGAGCGTCGTGTAGGGAAAGAGTGT,,,,,,,,",
    "[Data],,,,,,,,,",
    "SampleID,Sample_Name,Sample_Plate,Organism,I7_Index_ID,index,I5_Index_ID,index2,Sample_Project,Description"]

  /** `HEADER`: the triple-quoted literal opens with a newline and ends each line with one. */
  const Header: string := "\n" + Terminated(HeaderLines)

  /** Python's `str.isspace` for one character. */
  predicate IsSpace(c: char)
  {
    c == '\t' || c == '\n' || c == '\U{B}' || c == '\U{C}' || c == '\r'
    || ('\U{1C}' <= c <= '\U{1F}') || c == ' ' || c == '\U{85}' || c == '\U{A0}'
    || c == '\U{1680}' || ('\U{2000}' <= c <= '\U{200A}') || c == '\U{2028}'
    || c == '\U{2029}' || c == '\U{202F}' || c == '\U{205F}' || c == '\U{3000}'
  }

  /** `s.lstrip()`: `s` without its leading whitespace. */
  function LStrip(s: string): (r: string)
    ensures |r| <= |s| && r == s[|s| - |r|..]
    ensures forall i :: 0 <= i < |s| - |r| ==> IsSpace(s[i])
    ensures r == [] || !IsSpace(r[0])
  {
    if s != [] && IsSpace(s[0]) then LStrip(s[1..]) else s
  }

  /** The whole output file: the stripped header, then the rows as CSV. */
  function Sheet(rows: seq<Row>, project: string): string
  {
    LStrip(Header) + Csv(Transform(rows, project))
  }

  /** A field the CSV writer emits as it is: no comma, quote or line break to quote. */
  predicate Plain(s: string)
  {
    ',' !in s && '"' !in s && '\n' !in s && '\r' !in s
  }

  /** Every output field of the row is plain. */
  predicate PlainRow(r: Row)
  {
    forall i :: 0 <= i < |Fields(r)| ==> Plain(Fields(r)[i])
  }

  /** The fields of an input row that reach the output, and the project label, are plain.
      Plate and Species are overwritten, so they may hold anything. */
  predicate Writable(r: Row, project: string)
  {
    Plain(r.sampleId) && Plain(r.name) && Plain(r.index1Name) && Plain(r.index1Sequence)
    && Plain(r.index2Name) && Plain(r.index2Sequence) && Plain(r.nucleicAcid) && Plain(project)
  }

  /** Stripping a text that opens with a newline followed by terminated lines, the first of
      which starts with a non-space, removes exactly that newline. */
  lemma StripOpeningNewline(lines: seq<string>)
    requires lines != [] && lines[0] != [] && !IsSpace(lines[0][0])
    ensures LStrip("\n" + Terminated(lines)) == Terminated(lines)
  {
    var body := Terminated(lines);
    assert body == lines[0] + "\n" + Terminated(lines[1..]);
    assert body[0] == lines[0][0];
    assert ("\n" + body)[1..] == body;
  }

  /** The header's `Adapter` setting is the adapter whose reverse complement Dna proves. */
  lemma AdapterInHeader()
    ensures HeaderLines[16] == "Adapter," + Adapter + ",,,,,,,,"
  {
    AdapterText();
  }

  /** Stripping the header removes exactly its opening newline. */
  lemma HeaderStripped()
    ensures LStrip(Header) == Terminated(HeaderLines)
  {
    StripOpeningNewline(HeaderLines);
  }

  /** The reverse complement of a plain field is plain: none of the four characters is a base. */
  lemma ReverseTrPlain(x: string)
    requires Plain(x)
    ensures Plain(ReverseTr(x))
  {
    ReverseTrKeepsOthers(x, ',');
    ReverseTrKeepsOthers(x, '"');
    ReverseTrKeepsOthers(x, '\n');
    ReverseTrKeepsOthers(x, '\r');
  }

  /** Appending the `-seq` suffix to a plain field keeps it plain. */
  lemma SuffixPlain(s: string)
    requires Plain(s)
    ensures Plain(s + "-seq")
  {
    var t := s + "-seq";
    forall c | c in t && c !in s
      ensures c == '-' || c == 's' || c == 'e' || c == 'q'
    {
      var j :| 0 <= j < |t| && t[j] == c;
      assert j >= |s|;
    }
  }

  /** A transformed writable row has only plain output fields. */
  lemma TransformedPlain(r: Row, project: string)
    requires Writable(r, project)
    ensures PlainRow(TransformRow(r, project))
  {
    ReverseTrPlain(r.index2Sequence);
    SuffixPlain(r.nucleicAcid);
  }

  /** The data line of a row with only plain fields holds no newline. */
  lemma RowLineSingle(r: Row)
    requires PlainRow(r)
    ensures '\n' !in RowLine(r)
  {
    JoinAvoids(Fields(r), ',', '\n');
  }

  /** The sheet is the header without its opening newline, then the rows as CSV. */
  lemma SheetStart(rows: seq<Row>, project: string)
    ensures Sheet(rows, project) == Header[1..] + Csv(Transform(rows, project))
  {
    HeaderStripped();
  }

  /** The CSV part of the sheet reads back as exactly one line per input row, in input order:
      no title row from the CSV writer. */
  lemma CsvLinesBack(rows: seq<Row>, project: string)
    requires forall i :: 0 <= i < |rows| ==> Writable(rows[i], project)
    ensures Lines(Csv(Transform(rows, project))) == CsvLines(Transform(rows, project))
    ensures |Lines(Csv(Transform(rows, project)))| == |rows|
  {
    TransformedAllPlain(rows, project);
    CsvReadsBack(Transform(rows, project));
  }

  /** Reading back data line i of the sheet and splitting it at commas gives exactly ten cells
      and no index column: the row's own SampleID, Name, Index1Name, Index1Sequence and
      Index2Name, an empty Plate, Species "mm10", the reverse complement of Index2Sequence,
      the project label, and NucleicAcid with "-seq" appended. */
  lemma SheetRow(rows: seq<Row>, project: string, i: nat)
    requires forall k :: 0 <= k < |rows| ==> Writable(rows[k], project)
    requires i < |rows|
    ensures |Lines(Csv(Transform(rows, project)))| == |rows|
    ensures Split(Lines(Csv(Transform(rows, project)))[i], ',')
         == [rows[i].sampleId, rows[i].name, "", "mm10", rows[i].index1Name, rows[i].index1Sequence,
             rows[i].index2Name, ReverseTr(rows[i].index2Sequence), project, rows[i].nucleicAcid + "-seq"]
  {
    CsvLinesBack(rows, project);
    var t := TransformRow(rows[i], project);
    TransformedPlain(rows[i], project);
    SplitJoin(Fields(t), ',');
  }

  /** Writing one more row appends its line to the CSV of the rows before it. */
  lemma CsvSnoc(rows: seq<Row>, i: nat)
    requires i < |rows|
    ensures Csv(rows[..i + 1]) == Csv(rows[..i]) + RowLine(rows[i]) + "\n"
  {
    assert CsvLines(rows[..i + 1]) == CsvLines(rows[..i]) + [RowLine(rows[i])];
    TerminatedAppend(CsvLines(rows[..i]), [RowLine(rows[i])]);
  }

  /** A CSV of rows with only plain fields reads back as one line per row. */
  lemma CsvReadsBack(rows: seq<Row>)
    requires forall i :: 0 <= i < |rows| ==> PlainRow(rows[i])
    ensures Lines(Csv(rows)) == CsvLines(rows)
  {
    forall i | 0 <= i < |rows|
      ensures '\n' !in CsvLines(rows)[i]
    {
      RowLineSingle(rows[i]);
    }
    LinesTerminated(CsvLines(rows));
  }

  /** Every row of a transformed table of writable rows has only plain fields. */
  lemma TransformedAllPlain(rows: seq<Row>, project: string)
    requires forall i :: 0 <= i < |rows| ==> Writable(rows[i], project)
    ensures forall i :: 0 <= i < |rows| ==> PlainRow(Transform(rows, project)[i])
  {
    forall i | 0 <= i < |rows|
      ensures PlainRow(Transform(rows, project)[i])
    {
      TransformedPlain(rows[i], project);
    }
  }

  /** `to_csv(None, index=False, header=False)`: one comma-joined line per row, each followed
      by a newline, with no title row and no index column. Only plain fields are written
      as they are, so only rows of plain fields are taken. */
  method ToCsv(rows: seq<Row>) returns (csv: string)
    requires forall i :: 0 <= i < |rows| ==> PlainRow(rows[i])
    ensures csv == Csv(rows)
    ensures Lines(csv) == CsvLines(rows)
  {
    csv := "";
    for i := 0 to |rows|
      invariant csv == Csv(rows[..i])
    {
      CsvSnoc(rows, i);
      csv := csv + Join(Fields(rows[i]), ',') + "\n";
    }
    assert rows[..|rows|] == rows;
    CsvReadsBack(rows);
  }

  /** `prepare_sample_sheet` after the manifest is read: the five column rules are applied to
      the table in place, then the stripped header and the CSV rows are written out in that
      order. The written text is returned. */
  method PrepareSampleSheet(samples: array<Row>, project: string) returns (output: string)
    requires forall i :: 0 <= i < samples.Length ==> Writable(samples[i], project)
    modifies samples
    ensures samples[..] == Transform(old(samples[..]), project)
    ensures output == Sheet(old(samples[..]), project)
  {
    ghost var input := samples[..];
    for i := 0 to samples.Length
      invariant forall k :: 0 <= k < i ==> samples[k] == TransformRow(input[k], project)
      invariant forall k :: i <= k < samples.Length ==> samples[k] == input[k]
    {
      var row := samples[i];
      row := row.(species := "mm10");
      row := row.(project := project);
      row := row.(index2Sequence := ReverseTr(row.index2Sequence));
      row := row.(nucleicAcid := row.nucleicAcid + "-seq");
      row := row.(plate := "");
      assert row == TransformRow(input[i], project);
      samples[i] := row;
    }
    var table := samples[..];
    assert table == Transform(input, project);
    TransformedAllPlain(input, project);
    var body := ToCsv(table);
    output := LStrip(Header) + body;
  }
}
