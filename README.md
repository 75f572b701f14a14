# Sample-sheet writer, modelled in Dafny

The Python script `02-at2/utils.py` turns a tab-separated sample manifest into a
comma-separated sample sheet for a sequencing instrument. For every sample row it
applies five column rules:

- Species becomes `mm10`.
- Project becomes the `project` argument.
- Index2Sequence is replaced by its DNA reverse complement (`reverse_tr`).
- NucleicAcid gets the suffix `-seq`.
- Plate is blanked.

It then keeps ten columns in a fixed order. It writes the fixed `HEADER` block, with its
leading whitespace stripped, followed by one comma-separated line per row.

The project has three modules:

- `dna.dfy` (module `Dna`): `reverse_tr` as `ReverseTr`, which reverses its input and then
  translates it through the table A→T, G→C, C→G, T→A. Every other character passes through
  unchanged. Lemmas prove that the length is kept, the position-wise rule, that it is an
  involution on every string, that DNA maps to DNA, and the value for the header's adapter.
- `text.dfy` (module `Text`): joining on a separator, splitting on it, and newline-terminated
  lines. Each comes with its round-trip lemmas. They model how a CSV writer lays out a row
  and how the sheet reads back.
- `samplesheet.dfy` (module `SampleSheet`): the record `Row` with the ten string columns.
  `TransformRow` holds the five rules. `Select` and `Fields` model `samples.loc[:, columns]`.
  `LStrip` models `str.lstrip`, and `Header` is the header block. `Sheet` is the whole output
  text. `PrepareSampleSheet` is an imperative method: it updates an `array<Row>` in place and
  then builds the output. `ToCsv` is the row writer.

The translation at line 29 fixes every character other than A, C, G and T, so
`ReverseTrInvolution` holds for every string, not only for strings over {A,C,G,T}.

## Model

| member | source | states |
|---|---|---|
| Dna.Complement | 02-at2/utils.py:29 | the table of `str.maketrans`: A to T, G to C, C to G, T to A, and every other character to itself (a definition; its properties are in ComplementInvolutive) |
| Dna.Reverse | 02-at2/utils.py:29 | `x[::-1]` keeps the length; ReverseAt gives every position |
| Dna.Translate | 02-at2/utils.py:29 | `translate` keeps the length; TranslateAt gives every position |
| Dna.ComplementInvolutive | 02-at2/utils.py:29 | the translation table is its own inverse, maps bases to bases and fixes every non-base character |
| Dna.ReverseTr | 02-at2/utils.py:28-29 | `reverse_tr` keeps the length, and maps the empty string to the empty string |
| Dna.ReverseAt | 02-at2/utils.py:29 | position i of `x[::-1]` is position len(x)-1-i of `x` |
| Dna.TranslateAt | 02-at2/utils.py:29 | `translate` maps each position through the table |
| Dna.ReverseTrAt | 02-at2/utils.py:29 | position i of `reverse_tr(x)` is the complement of position len(x)-1-i of `x` |
| Dna.ReverseTrInvolution | 02-at2/utils.py:29 | `reverse_tr(reverse_tr(x)) == x` for every string, bases or not |
| Dna.ReverseTrKeepsDna | 02-at2/utils.py:29 | a string over {A,C,G,T} maps to a string over {A,C,G,T} |
| Dna.ReverseTrKeepsOthers | 02-at2/utils.py:29 | a non-base character occurs in the result exactly when it occurs in the input |
| Dna.ReverseTrAppend | 02-at2/utils.py:29 | the reverse complement of `a + b` is that of `b` followed by that of `a` |
| Dna.ReverseTr5 | 02-at2/utils.py:29 | five characters map to the complements of the same five in reverse order |
| Dna.ReverseTrPieces | 02-at2/utils.py:29 | the reverse complement of seven consecutive pieces is their reverse complements in the opposite order |
| Dna.AdapterReverseTr | 02-at2/utils.py:21 | `reverse_tr` of the header's `Adapter` value is `AdapterRc` |
| Dna.AdapterText | 02-at2/utils.py:21 | `Adapter` is the header's `AGATCGGAAGAGCACACGTCTGAACTCCAGTCA` and `AdapterRc` is `TGACTGGAGTTCAGACGTGTGCTCTTCCGATCT` |
| Text.Join | 02-at2/utils.py:55 | the writer's comma join of a row's fields: the fields with the separator between consecutive ones (a definition; SplitJoin and JoinAvoids state its properties) |
| Text.Terminated | 02-at2/utils.py:55 | the writer's line termination: every line followed by a newline (a definition; TerminatedAppend and LinesTerminated state its properties) |
| Text.SplitJoin | 02-at2/utils.py:55 | a comma-joined line of fields without commas splits back into exactly those fields |
| Text.SplitCons | 02-at2/utils.py:55 | splitting at the first separator yields the text before it, then the pieces of the rest |
| Text.TerminatedAppend | 02-at2/utils.py:53-55 | writing two blocks of lines one after another is writing their concatenation |
| Text.JoinAvoids | 02-at2/utils.py:55 | a character other than the separator that is in none of the fields is not in the joined line |
| Text.LinesTerminated | 02-at2/utils.py:55 | newline-terminated lines without newlines of their own read back as exactly those lines |
| SampleSheet.Column | 02-at2/utils.py:55 | `.loc` lookup of one column by name: the row's value for each of the ten column names, none for any other name (a definition; Select states its properties) |
| SampleSheet.Select | 02-at2/utils.py:55 | selecting columns by name succeeds exactly when every name is a column, and it yields one value per name, in the order named |
| SampleSheet.Fields | 02-at2/utils.py:33-44 | a row projected to `columns` is exactly ten fields: SampleID, Name, Plate, Species, Index1Name, Index1Sequence, Index2Name, Index2Sequence, Project, NucleicAcid |
| SampleSheet.TransformRow | 02-at2/utils.py:47-51 | Species is `mm10`, Project is the argument and Plate is empty, whatever the input held. Index2Sequence is its reverse complement and NucleicAcid has `-seq` appended. Every other field is unchanged |
| SampleSheet.Transform | 02-at2/utils.py:47-51 | the whole-column assignments give one row per input row, in order, each with the five rules applied: every row has the project, `mm10` and an empty Plate, and keeps its SampleID |
| SampleSheet.RowLine | 02-at2/utils.py:55 | one row as `to_csv` writes it: its ten output fields joined by commas (a definition; RowLineSingle and SheetRow state its properties) |
| SampleSheet.CsvLines | 02-at2/utils.py:55 | one data line per row, as many as there are rows |
| SampleSheet.Csv | 02-at2/utils.py:55 | `to_csv(None, index=False, header=False)`: each data line followed by a newline, no title row, no index column (a definition; CsvReadsBack and CsvLinesBack state its properties) |
| SampleSheet.HeaderLines | 02-at2/utils.py:5-24 | the twenty lines of the `HEADER` literal, in order (a constant) |
| SampleSheet.Header | 02-at2/utils.py:4-25 | `HEADER`: the triple-quoted literal opens with a newline and ends every line with one (a constant; HeaderStripped states what `lstrip` leaves of it) |
| SampleSheet.IsSpace | 02-at2/utils.py:54 | the characters Python's `str.isspace` accepts, the ones `lstrip` removes (a definition) |
| SampleSheet.LStrip | 02-at2/utils.py:54 | the result is a suffix of the input, all that was removed is whitespace, and the result does not start with whitespace |
| SampleSheet.Sheet | 02-at2/utils.py:53-55 | the whole file text: the stripped header, then the CSV of the transformed table (a definition; SheetStart, SheetRow and PrepareSampleSheet state its properties) |
| SampleSheet.StripOpeningNewline | 02-at2/utils.py:54 | stripping a newline-opened block of lines whose first line starts with a non-space removes exactly that newline |
| SampleSheet.HeaderStripped | 02-at2/utils.py:54 | `HEADER.lstrip()` drops exactly the opening newline of the header literal |
| SampleSheet.AdapterInHeader | 02-at2/utils.py:21 | the header's `Adapter` line carries exactly the adapter whose reverse complement AdapterReverseTr computes |
| SampleSheet.SheetStart | 02-at2/utils.py:53-55 | the output file is the header without its opening newline, followed by the CSV of the transformed rows |
| SampleSheet.ReverseTrPlain | 02-at2/utils.py:49 | the reverse complement of a field with no comma, quote or line break has none either |
| SampleSheet.SuffixPlain | 02-at2/utils.py:50 | appending `-seq` to such a field keeps it free of them |
| SampleSheet.TransformedPlain | 02-at2/utils.py:47-51 | if the surviving input fields and the project label have no comma, quote or line break, then neither do any of the transformed row's output fields |
| SampleSheet.RowLineSingle | 02-at2/utils.py:55 | a row of plain fields is written as a single line |
| SampleSheet.CsvLinesBack | 02-at2/utils.py:55 | the CSV part reads back as exactly N lines for N input rows, in input order, with no title row |
| SampleSheet.SheetRow | 02-at2/utils.py:47-55 | data line i splits at commas into exactly ten cells: SampleID, Name, `""`, `mm10`, Index1Name, Index1Sequence, Index2Name, reverse-complemented Index2Sequence, the project, NucleicAcid + `-seq` |
| SampleSheet.TransformedAllPlain | 02-at2/utils.py:47-51 | when every input row is writable, every row of the transformed table has only plain output fields |
| SampleSheet.CsvSnoc | 02-at2/utils.py:55 | writing one more row appends exactly its comma-joined line and a newline |
| SampleSheet.CsvReadsBack | 02-at2/utils.py:55 | the CSV of rows with plain fields reads back as one line per row, in order |
| SampleSheet.ToCsv | 02-at2/utils.py:55 | the rows written one after another are the CSV of the table, and that CSV reads back as one line per row |
| SampleSheet.PrepareSampleSheet | 02-at2/utils.py:47-55 | the table afterwards is every input row with the five rules applied, in place, in order. The output is the stripped header followed by the CSV of the transformed table |

## Left out

- Reading the manifest (`pd.read_table`, line 46): this is a library call. The model takes the parsed rows as input.
- Extra manifest columns: `samples.loc[:, columns]` drops them. A `Row` holds only the ten columns that are kept.
- Missing manifest columns: a `Row` always has all ten fields, so the model never takes these error paths, and the `None` of `Select` (the table library's key error) is never reached from `PrepareSampleSheet`. In the source, lines 47-48 set attributes, not columns, when the manifest has no Species or Project column. The projection at line 55 then raises a key error, as it does for a missing SampleID, Name, Index1Name, Index1Sequence or Index2Name. Line 54 has already written the header by then, so the file holds only the stripped header. A missing Index2Sequence or NucleicAcid raises at line 49 or 50, before the file is opened. A missing Plate column is created by line 51.
- CSV quoting and escaping in `to_csv`: `ToCsv` and `PrepareSampleSheet` require every written field and the project label to be free of commas, double quotes and line breaks. This is the only case where an unquoted join is what the writer produces. Plate and Species are not constrained, because they are overwritten.
- The line terminator: each CSV row ends with `"\n"`. This is the writer's default (`os.linesep`) on POSIX systems; on Windows it would be `"\r\n"`.
- Missing values (NaN) and non-string column types from the table library: all fields of a `Row` are strings, so `""` in a `Row` is an empty string, not an empty manifest cell. `pd.read_table` reads an empty cell as NaN. When some other NucleicAcid cell holds a string, an empty NucleicAcid stays NaN and is written as an empty cell rather than `-seq` (line 50). When every NucleicAcid cell is empty, the column is numeric and `+ "-seq"` raises a type error at line 50. An empty Index2Sequence makes `reverse_tr` raise (line 49). In both error cases no sheet is written. A numeric column such as SampleID would also be written in the library's number format.
- Opening and writing the output file (lines 53-55): this is I/O. `PrepareSampleSheet` returns the text that the two `write` calls put into the file.
- The header's internal layout is not proved. No lemma counts its lines or its cells; it is a constant given as its twenty lines (lines 5-24).
- Column-at-a-time updates: the source assigns whole columns in five statements. `PrepareSampleSheet` applies the same five assignments row by row. Each rule reads and writes only its own row's fields, so the resulting table is the same.
