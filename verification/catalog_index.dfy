/**
 * Index build (create_vector_index.py): every catalog row gets a search
 * document, the documents are encoded and L2-normalised, and the vectors, the
 * metadata records and the rows of the flat inner-product index are produced
 * from the same rows in the same order.
 *
 * The sentence encoder and `faiss.normalize_L2` are foreign numerics; they
 * enter as the function parameters `encode` and `normalize` over an abstract
 * vector type `V`.
 */
module CatalogIndex {
  import opened Wrappers
  import opened Text

  /** A catalog row as pandas reads it: column to cell, `None` for a NaN cell. A row without a key holds NaN there. */
  type Row = map<string, Option<string>>

  /** The catalog CSV once read: its header and its rows in file order. */
  datatype Catalog = Catalog(columns: set<string>, rows: seq<Row>)

  const TitleColumn := "title"
  const DescriptionColumn := "description"
  const TestTypeColumn := "test_type"
  const SearchTextColumn := "search_text"

  datatype BuildError =
    /** The catalog CSV does not exist: `FileNotFoundError`. */
    | CatalogNotFound(path: string)
      /** `df.get(name, '')` yields the str `''`, whose `.fillna` raises `AttributeError`. */
    | MissingColumn(name: string)

  /** `fillna('')` applied to one cell. */
  function CellText(row: Row, column: string): string {
    if column in row then row[column].GetOr("") else ""
  }

  /** The search document of one catalog item: `strip(title + ". " + description + ". " + test_type)`. */
  function SearchText(title: string, description: string, testType: string): (text: string)
    ensures NoOuterSpace(text)
  {
    Strip(title + ". " + description + ". " + testType)
  }

  /** The search document of one row, with NaN cells read as empty strings. */
  function RowText(row: Row): string {
    SearchText(CellText(row, TitleColumn), CellText(row, DescriptionColumn), CellText(row, TestTypeColumn))
  }

  /** `prepare_texts` followed by `df['search_text'].tolist()`. */
  function PrepareTexts(catalog: Catalog): (r: Result<seq<string>, BuildError>)
    ensures r.Failure? <==> !(TitleColumn in catalog.columns && DescriptionColumn in catalog.columns && TestTypeColumn in catalog.columns)
    ensures r.Failure? && TitleColumn !in catalog.columns ==> r.error == MissingColumn(TitleColumn)
    ensures r.Failure? && TitleColumn in catalog.columns && DescriptionColumn !in catalog.columns ==>
      r.error == MissingColumn(DescriptionColumn)
    ensures r.Failure? && TitleColumn in catalog.columns && DescriptionColumn in catalog.columns ==>
      r.error == MissingColumn(TestTypeColumn)
    ensures r.Success? ==> |r.value| == |catalog.rows|
    ensures r.Success? ==> forall i :: 0 <= i < |catalog.rows| ==> r.value[i] == RowText(catalog.rows[i])
  {
    if TitleColumn !in catalog.columns then Failure(MissingColumn(TitleColumn))
    else if DescriptionColumn !in catalog.columns then Failure(MissingColumn(DescriptionColumn))
    else if TestTypeColumn !in catalog.columns then Failure(MissingColumn(TestTypeColumn))
    else Success(seq(|catalog.rows|, i requires 0 <= i < |catalog.rows| => RowText(catalog.rows[i])))
  }

  /** `IndexFlatIP` after `index.add(vectors)`: the stored rows, position by position. */
  datatype FlatIndex<V> = FlatIndex(rows: seq<V>)

  /** What one build saves: vectors.npy, product_records.pkl and the index file, plus the encoded texts. */
  datatype Artifacts<V> = Artifacts(texts: seq<string>, vectors: seq<V>, metadata: seq<Row>, index: FlatIndex<V>)

  /**
   * The central invariant of the saved artifacts: equal lengths, and position
   * `i` of every artifact describes catalog row `i`.
   */
  ghost predicate Aligned<V>(a: Artifacts<V>, catalog: Catalog, encode: string -> V, normalize: V -> V) {
    && |a.texts| == |catalog.rows|
    && |a.vectors| == |catalog.rows|
    && |a.metadata| == |catalog.rows|
    && |a.index.rows| == |catalog.rows|
    && forall i :: 0 <= i < |catalog.rows| ==>
         && a.texts[i] == RowText(catalog.rows[i])
         && a.metadata[i] == catalog.rows[i][SearchTextColumn := Some(a.texts[i])]
         && a.vectors[i] == normalize(encode(a.texts[i]))
         && a.index.rows[i] == a.vectors[i]
  }

  /** `create_vector_index(path)`, with the file's existence and contents as inputs. */
  function Build<V>(catalogExists: bool, path: string, catalog: Catalog, encode: string -> V, normalize: V -> V)
    : (r: Result<Artifacts<V>, BuildError>)
    ensures !catalogExists ==> r == Failure(CatalogNotFound(path))
    ensures catalogExists ==> (r.Success? <==> PrepareTexts(catalog).Success?)
    ensures r.Success? ==> Aligned(r.value, catalog, encode, normalize)
  {
    if !catalogExists then Failure(CatalogNotFound(path))
    else match PrepareTexts(catalog)
      case Failure(e) => Failure(e)
      case Success(texts) =>
        var vectors := seq(|texts|, i requires 0 <= i < |texts| => normalize(encode(texts[i])));
        var metadata := seq(|texts|, i requires 0 <= i < |texts| => catalog.rows[i][SearchTextColumn := Some(texts[i])]);
        Success(Artifacts(texts, vectors, metadata, FlatIndex(vectors)))
  }

  /**
   * The exact shape of a search document: the title loses only its leading
   * whitespace, the description is kept verbatim, the test type loses only its
   * trailing whitespace, and the last separator's space goes when the test type
   * is blank.
   */
  lemma SearchTextShape(title: string, description: string, testType: string)
    ensures SearchText(title, description, testType) ==
      TrimStart(title) + ". " + description + "." + (if AllSpace(testType) then "" else " " + TrimEnd(testType))
  {
    var s := title + ". " + description + ". " + testType;
    Regroup(title, ". ", description, ". ", testType);
    TrimStartAppend(title, ". " + description + ". " + testType);
    var t := TrimStart(title);
    Regroup(t, ". ", description, ". ", testType);
    SplitSeparator(t + ". " + description, testType);
    var head := t + ". " + description + ".";
    var rest := [' '] + testType;
    assert TrimStart(s) == head + rest;
    TrimEndAppend(head, rest);
    TrimEndCons(' ', testType);
    assert Strip(s) == head + TrimEnd(rest);
  }

  lemma Regroup(a: string, b: string, c: string, d: string, e: string)
    ensures a + b + c + d + e == a + (b + c + d + e)
  {
  }

  lemma SplitSeparator(a: string, y: string)
    ensures a + ". " + y == (a + ".") + ([' '] + y)
  {
  }

  /** A search document always keeps the separator after the title, so it is never empty. */
  lemma SearchTextNeverEmpty(title: string, description: string, testType: string)
    ensures |SearchText(title, description, testType)| >= 3
    ensures |TrimStart(title)| < |SearchText(title, description, testType)|
         && SearchText(title, description, testType)[|TrimStart(title)|] == '.'
  {
    SearchTextShape(title, description, testType);
    var t := TrimStart(title);
    var tail := if AllSpace(testType) then "" else " " + TrimEnd(testType);
    ShapeLength(t, description, tail);
  }

  lemma ShapeLength(t: string, d: string, tail: string)
    ensures |t + ". " + d + "." + tail| >= 3
    ensures |t| < |t + ". " + d + "." + tail| && (t + ". " + d + "." + tail)[|t|] == '.'
  {
  }

  /** A row with no title, description or test type is indexed under the document ". .". */
  lemma EmptyRowText()
    ensures SearchText("", "", "") == ". ."
  {
    SearchTextShape("", "", "");
    assert AllSpace("");
    assert TrimStart("") == "";
    assert "" + ". " + "" + "." + "" == ". .";
  }

  /** Stripping a search document again changes nothing. */
  lemma SearchTextStripStable(title: string, description: string, testType: string)
    ensures Strip(SearchText(title, description, testType)) == SearchText(title, description, testType)
  {
    StripIdempotent(title + ". " + description + ". " + testType);
  }

  /** A NaN cell reads exactly as an empty one: it yields the same search document. */
  lemma MissingCellIsEmpty(row: Row, column: string)
    ensures RowText(row[column := None]) == RowText(row[column := Some("")])
  {
  }

  /**
   * Query-time join: the vector stored at index position `i` is the encoding of
   * the search document that the metadata record at position `i` carries, and
   * that document can be rebuilt from the record's own fields.
   */
  lemma HitResolvesToRecord<V>(catalogExists: bool, path: string, catalog: Catalog, encode: string -> V, normalize: V -> V, i: nat)
    requires Build(catalogExists, path, catalog, encode, normalize).Success?
    requires i < |Build(catalogExists, path, catalog, encode, normalize).value.index.rows|
    ensures var a := Build(catalogExists, path, catalog, encode, normalize).value;
            && i < |a.metadata|
            && SearchTextColumn in a.metadata[i]
            && a.metadata[i][SearchTextColumn] == Some(RowText(a.metadata[i]))
            && a.index.rows[i] == normalize(encode(RowText(a.metadata[i])))
  {
    var a := Build(catalogExists, path, catalog, encode, normalize).value;
    var row := catalog.rows[i];
    assert a.metadata[i] == row[SearchTextColumn := Some(a.texts[i])];
    assert forall c :: c != SearchTextColumn ==> CellText(a.metadata[i], c) == CellText(row, c);
    assert RowText(a.metadata[i]) == RowText(row);
  }
}
