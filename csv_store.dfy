/**
 * The CSV files behind the record store. A file is a header row plus data
 * rows of cells (the csv module's quoting is taken to round-trip every cell),
 * and the disk is a map from path to file.
 */
module CsvStore {

  type Row = seq<string>

  /** A CSV file: its header row and its data rows in file order. */
  datatype Table = Table(header: seq<string>, rows: seq<Row>)

  /** `os.path.join(settings.BASE_DIR, 'data', ...)` for the three tables in use. */
  const BlogPostsCsv: string := "BASE_DIR/data/blogposts.csv"
  const CommentsCsv: string := "BASE_DIR/data/comments.csv"
  const VisitorProfileCsv: string := "BASE_DIR/data/visitorprofiles.csv"

  /**
   * The file at `path`, if it exists, has `schema` as header and one cell per
   * column in every data row: what this module's writers always produce.
   */
  predicate Conforms(files: map<string, Table>, path: string, schema: seq<string>)
  {
    path in files ==>
      files[path].header == schema &&
      forall i :: 0 <= i < |files[path].rows| ==> |files[path].rows[i]| == |schema|
  }

  /** The data rows of the file at `path`; none while it does not exist. */
  function RowsAt(files: map<string, Table>, path: string): seq<Row>
  {
    if path in files then files[path].rows else []
  }

  /** The disk after `ensure_csv_exists(path, headers)`. */
  function Ensured(files: map<string, Table>, path: string, headers: seq<string>): (r: map<string, Table>)
    ensures path in r && r[path].rows == RowsAt(files, path)
    ensures path in files ==> r == files
    ensures path !in files ==> r[path].header == headers
    ensures forall p :: p != path ==> (p in r <==> p in files) && (p in files ==> r[p] == files[p])
  {
    if path in files then files else files[path := Table(headers, [])]
  }

  /** The disk after `ensure_csv_exists` followed by appending one row. */
  function Appended(files: map<string, Table>, path: string, headers: seq<string>, row: Row): map<string, Table>
  {
    var f := Ensured(files, path, headers);
    f[path := Table(f[path].header, f[path].rows + [row])]
  }

  /** `ensure_csv_exists` is idempotent: once the file exists a second call changes nothing. */
  lemma EnsureIdempotent(files: map<string, Table>, path: string, headers: seq<string>)
    ensures Ensured(Ensured(files, path, headers), path, headers) == Ensured(files, path, headers)
  {
  }

  /** The file system, as far as the record store sees it. */
  class Disk {
    var files: map<string, Table>

    constructor (initial: map<string, Table>)
      ensures files == initial
    {
      files := initial;
    }

    /**
     * `ensure_csv_exists(file_path, headers)`: a missing file is created holding
     * only the header row; an existing file is left as it is (its header is not checked).
     */
    method EnsureCsvExists(path: string, headers: seq<string>)
      modifies this
      ensures files == Ensured(old(files), path, headers)
    {
      if path !in files {
        files := files[path := Table(headers, [])];
      }
    }

    /** `open(path, 'a')` and `writer.writerow(row)` on an existing file. */
    method AppendRow(path: string, row: Row)
      requires path in files
      modifies this
      ensures files == old(files)[path := Table(old(files)[path].header, old(files)[path].rows + [row])]
    {
      files := files[path := Table(files[path].header, files[path].rows + [row])];
    }

    /** `open(path, 'w')`, then the header row and every given row. */
    method RewriteAll(path: string, headers: seq<string>, rows: seq<Row>)
      modifies this
      ensures files == old(files)[path := Table(headers, rows)]
    {
      files := files[path := Table(headers, rows)];
    }
  }
}
