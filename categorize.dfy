/**
 * `organizeDataByCategories`: one pass over the normalised records with a
 * current-category cursor. A row whose text names a category moves the
 * cursor and is dropped; any other row is cleaned and, when it still has a
 * `PROJETO` value, appended to the bucket the cursor names.
 */
module Categorize {
  import opened Wrappers
  import opened JsText
  import opened Records

  /** The four business categories, in the order the result object lists them. */
  datatype Category = Aprendizagem | Processos | ClienteEMercado | Resultado {
    /** The category's key in the result object. */
    function Name(): string {
      match this
      case Aprendizagem => "Aprendizagem e Crescimento"
      case Processos => "Processos"
      case ClienteEMercado => "Cliente e Mercado"
      case Resultado => "Resultado"
    }
  }

  /** The result object: one array of records per category. */
  datatype Buckets = Buckets(aprendizagem: seq<Record>, processos: seq<Record>,
                             clienteEMercado: seq<Record>, resultado: seq<Record>)
  {
    /** `categories[c]` */
    function Get(c: Category): seq<Record> {
      match c
      case Aprendizagem => aprendizagem
      case Processos => processos
      case ClienteEMercado => clienteEMercado
      case Resultado => resultado
    }

    /** `categories[c].push(r)` */
    function Push(c: Category, r: Record): Buckets {
      match c
      case Aprendizagem => this.(aprendizagem := aprendizagem + [r])
      case Processos => this.(processos := processos + [r])
      case ClienteEMercado => this.(clienteEMercado := clienteEMercado + [r])
      case Resultado => this.(resultado := resultado + [r])
    }

    /** The number of records stored over all four buckets. */
    function Total(): nat {
      |aprendizagem| + |processos| + |clienteEMercado| + |resultado|
    }

    /** The object as its entries, in key order: what the timeline receives. */
    function Entries(): seq<(string, seq<Record>)> {
      [(Aprendizagem.Name(), aprendizagem), (Processos.Name(), processos),
       (ClienteEMercado.Name(), clienteEMercado), (Resultado.Name(), resultado)]
    }
  }

  const EMPTY_BUCKETS := Buckets([], [], [], [])
  const PROJETO := "PROJETO"
  const APRENDIZAGEM_TEXT := "APRENDIZAGEM E CRESCIMENTO"

  /** `Object.values(row).join(' ').toUpperCase()` */
  function RowText(row: Record): string {
    Upper(Join(Values(row), " "))
  }

  /**
   * The category a marker row moves the cursor to, checked in the source's
   * order: `PROCESSOS`, then `CLIENTE E MERCADO`, then `RESULTADO`. The
   * branch for `APRENDIZAGEM E CRESCIMENTO` (lines 400-404) assigns nothing,
   * so no row moves the cursor back to the first category.
   */
  function MarkerOf(row: Record): (m: Option<Category>)
    ensures m != Some(Aprendizagem)
  {
    var text := RowText(row);
    if Contains(text, "PROCESSOS") then Some(Processos)
    else if Contains(text, "CLIENTE E MERCADO") then Some(ClienteEMercado)
    else if Contains(text, "RESULTADO") then Some(Resultado)
    else None
  }

  /**
   * A cell whose upper-cased text contains one of the three marker keywords
   * makes its whole row a marker row: `RowText` joins every value, so the
   * keyword is found wherever the cell sits.
   */
  lemma CellKeywordMakesMarker(row: Record, i: nat, keyword: string)
    requires i < |row|
    requires keyword in {"PROCESSOS", "CLIENTE E MERCADO", "RESULTADO"}
    requires Contains(Upper(row[i].1), keyword)
    ensures MarkerOf(row).Some?
  {
    var values := Values(row);
    JoinHasPart(values, " ", i);
    var a, b :| Join(values, " ") == a + values[i] + b;
    UpperAppend(a + values[i], b);
    UpperAppend(a, values[i]);
    ContainsAfter(Upper(a), Upper(values[i]), keyword);
    ContainsBefore(Upper(a) + Upper(values[i]), Upper(b), keyword);
    assert Contains(RowText(row), keyword);
  }

  /**
   * One cell cleaned: trimmed, and erased when it reads exactly
   * `APRENDIZAGEM E CRESCIMENTO` in any letter case.
   */
  function CleanValue(v: string): (c: string)
    ensures c == "" || c == Trim(v)
    ensures c == "" <==> Trim(v) == "" || Upper(Trim(v)) == APRENDIZAGEM_TEXT
    ensures IsTrimmed(c) && Upper(c) != APRENDIZAGEM_TEXT
  {
    var t := Trim(v);
    if Upper(t) == APRENDIZAGEM_TEXT then
      ""
    else
      assert Upper("") == "";
      t
  }

  /** The `cleanedRow` the inner loop builds: every entry whose cleaned value is non-empty. */
  function Cleaned(row: Record): Record
    decreases |row|
  {
    if row == [] then []
    else
      var n := |row| - 1;
      var c := CleanValue(row[n].1);
      if c != "" then Put(Cleaned(row[..n]), row[n].0, c) else Cleaned(row[..n])
  }

  /** Cleaning one more entry. */
  lemma CleanedSnoc(row: Record, i: nat)
    requires i < |row|
    ensures Cleaned(row[..i + 1]) == if CleanValue(row[i].1) != "" then Put(Cleaned(row[..i]), row[i].0, CleanValue(row[i].1))
                                     else Cleaned(row[..i])
  {
    assert row[..i + 1][..i] == row[..i];
  }

  /** Whether a cleaned row is stored: `hasContent && hasProjeto`. */
  predicate Keeps(cleaned: Record) {
    cleaned != [] && Get(cleaned, PROJETO).Some?
  }

  /** A row that the scan stores: no marker, and a `PROJETO` value after cleaning. */
  predicate Qualifies(row: Record) {
    MarkerOf(row).None? && Keeps(Cleaned(row))
  }

  /** The loop state: the cursor and the buckets. */
  datatype ScanState = ScanState(cursor: Category, buckets: Buckets)

  const INITIAL := ScanState(Aprendizagem, EMPTY_BUCKETS)

  /** One iteration of the source's `for` loop. */
  function Step(s: ScanState, row: Record): ScanState {
    match MarkerOf(row)
    case Some(c) => ScanState(c, s.buckets)
    case None =>
      var cleaned := Cleaned(row);
      if Keeps(cleaned) then ScanState(s.cursor, s.buckets.Push(s.cursor, cleaned)) else s
  }

  /** The loop state after scanning all of `data`, from the initial cursor and empty buckets. */
  function Scan(data: seq<Record>): ScanState
    decreases |data|
  {
    if data == [] then INITIAL else Step(Scan(data[..|data| - 1]), data[|data| - 1])
  }

  /** One step of the scan, by cases on the row. */
  lemma StepCases(s: ScanState, row: Record)
    ensures Step(s, row).cursor == if MarkerOf(row).Some? then MarkerOf(row).value else s.cursor
    ensures Step(s, row).buckets == if Qualifies(row) then s.buckets.Push(s.cursor, Cleaned(row)) else s.buckets
  {
  }

  /** Scanning one more row is one more step. */
  lemma ScanSnoc(data: seq<Record>)
    requires data != []
    ensures Scan(data) == Step(Scan(data[..|data| - 1]), data[|data| - 1])
  {
  }

  /** The inner `for` over `Object.entries(row)` with its two flags (lines 407-426). */
  method CleanRow(row: Record) returns (cleanedRow: Record, hasContent: bool, hasProjeto: bool)
    ensures cleanedRow == Cleaned(row)
    ensures hasContent <==> cleanedRow != []
    ensures hasProjeto <==> Get(cleanedRow, PROJETO).Some?
  {
    cleanedRow, hasContent, hasProjeto := [], false, false;
    for i := 0 to |row|
      invariant cleanedRow == Cleaned(row[..i])
      invariant hasContent <==> cleanedRow != []
      invariant hasProjeto <==> Get(cleanedRow, PROJETO).Some?
    {
      var (key, value) := row[i];
      ghost var before := cleanedRow;
      CleanedSnoc(row, i);
      var cleanedValue := Trim(value);
      if Upper(cleanedValue) == APRENDIZAGEM_TEXT {
        cleanedValue := "";
      }
      assert cleanedValue == CleanValue(value);
      if cleanedValue != "" {
        cleanedRow := Put(cleanedRow, key, cleanedValue);
        assert Get(cleanedRow, key).Some?;
        hasContent := true;
        if key == PROJETO {
          hasProjeto := true;
        } else {
          assert Get(cleanedRow, PROJETO) == Get(before, PROJETO);
        }
      }
    }
    assert row[..|row|] == row;
  }

  /** `organizeDataByCategories(data)` */
  method OrganizeDataByCategories(data: seq<Record>) returns (categories: Buckets)
    ensures categories == Scan(data).buckets
  {
    categories := EMPTY_BUCKETS;
    var currentCategory := Aprendizagem;
    for i := 0 to |data|
      invariant ScanState(currentCategory, categories) == Scan(data[..i])
    {
      assert data[..i + 1][..i] == data[..i];
      var row := data[i];
      var rowText := Upper(Join(Values(row), " "));
      if Contains(rowText, "PROCESSOS") {
        currentCategory := Processos;
        continue;
      } else if Contains(rowText, "CLIENTE E MERCADO") {
        currentCategory := ClienteEMercado;
        continue;
      } else if Contains(rowText, "RESULTADO") {
        currentCategory := Resultado;
        continue;
      }
      var cleanedRow, hasContent, hasProjeto := CleanRow(row);
      if hasContent && hasProjeto {
        categories := categories.Push(currentCategory, cleanedRow);
      }
    }
    assert data[..|data|] == data;
  }

  // ---------------------------------------------------------------------
  // What a stored record looks like

  /** A record as the scan stores it. */
  predicate IsStoredShape(r: Record) {
    && DistinctKeys(r)
    && Get(r, PROJETO).Some?
    && forall e :: e in r ==> e.1 != "" && IsTrimmed(e.1) && Upper(e.1) != APRENDIZAGEM_TEXT
  }

  /**
   * Cleaning keeps exactly the fields whose cleaned value is non-empty, each
   * holding the trimmed input value; it adds no key.
   */
  lemma {:induction false} CleanedField(row: Record, k: string)
    requires DistinctKeys(row)
    ensures Get(Cleaned(row), k) == match Get(row, k)
                                    case None => None
                                    case Some(v) => if CleanValue(v) == "" then None else Some(Trim(v))
    decreases |row|
  {
    if row != [] {
      var n := |row| - 1;
      var p := row[..n];
      assert row == p + [row[n]];
      assert DistinctKeys(p);
      CleanedField(p, k);
      GetSnoc(p, row[n].0, row[n].1, k);
      if k == row[n].0 {
        assert Get(p, k).None?;
      }
    }
  }

  /** Every entry of a cleaned row is non-empty, trimmed and not the first category's name; keys stay distinct. */
  lemma {:induction false} CleanedShape(row: Record)
    ensures DistinctKeys(Cleaned(row))
    ensures forall e :: e in Cleaned(row) ==> e.1 != "" && IsTrimmed(e.1) && Upper(e.1) != APRENDIZAGEM_TEXT
    decreases |row|
  {
    if row != [] {
      var n := |row| - 1;
      CleanedShape(row[..n]);
      var c := CleanValue(row[n].1);
      if c != "" {
        PutDistinct(Cleaned(row[..n]), row[n].0, c);
      }
    }
  }

  // ---------------------------------------------------------------------
  // What the scan computes

  /** The cursor after scanning `data`, computed from the marker rows alone. */
  function CursorAfter(data: seq<Record>): Category
    decreases |data|
  {
    if data == [] then Aprendizagem
    else match MarkerOf(data[|data| - 1])
      case Some(c) => c
      case None => CursorAfter(data[..|data| - 1])
  }

  /** The scan's cursor depends on the marker rows only. */
  lemma {:induction false} ScanCursor(data: seq<Record>)
    ensures Scan(data).cursor == CursorAfter(data)
    decreases |data|
  {
    if data != [] {
      var n := |data| - 1;
      ScanCursor(data[..n]);
      ScanSnoc(data);
      StepCases(Scan(data[..n]), data[n]);
    }
  }

  /**
   * The cursor is still the first category exactly when no marker row has
   * been scanned: once moved, it never returns to `Aprendizagem e Crescimento`.
   */
  lemma {:induction false} CursorStaysFirst(data: seq<Record>)
    ensures Scan(data).cursor == Aprendizagem <==> forall i :: 0 <= i < |data| ==> MarkerOf(data[i]).None?
  {
    ScanCursor(data);
    CursorAfterFirst(data);
  }

  lemma {:induction false} CursorAfterFirst(data: seq<Record>)
    ensures CursorAfter(data) == Aprendizagem <==> forall i :: 0 <= i < |data| ==> MarkerOf(data[i]).None?
    decreases |data|
  {
    if data != [] {
      var n := |data| - 1;
      var p := data[..n];
      CursorAfterFirst(p);
      assert forall i :: 0 <= i < n ==> p[i] == data[i];
    }
  }

  /** After the last marker row, the cursor holds that row's category. */
  lemma {:induction false} CursorIsLastMarker(data: seq<Record>, i: nat)
    requires i < |data| && MarkerOf(data[i]).Some?
    requires forall j :: i < j < |data| ==> MarkerOf(data[j]).None?
    ensures Scan(data).cursor == MarkerOf(data[i]).value
    decreases |data|
  {
    ScanCursor(data);
    CursorAfterLastMarker(data, i);
  }

  lemma {:induction false} CursorAfterLastMarker(data: seq<Record>, i: nat)
    requires i < |data| && MarkerOf(data[i]).Some?
    requires forall j :: i < j < |data| ==> MarkerOf(data[j]).None?
    ensures CursorAfter(data) == MarkerOf(data[i]).value
    decreases |data|
  {
    var n := |data| - 1;
    var p := data[..n];
    if i < n {
      assert forall j :: i < j < |p| ==> p[j] == data[j];
      assert p[i] == data[i];
      CursorAfterLastMarker(p, i);
    }
  }

  /**
   * Scanning more rows only appends to each bucket: records already stored
   * keep their places, so every bucket lists its records in grid order.
   */
  lemma {:induction false} ScanExtends(data: seq<Record>, more: seq<Record>, c: Category)
    ensures Scan(data).buckets.Get(c) <= Scan(data + more).buckets.Get(c)
    decreases |more|
  {
    if more != [] {
      var n := |more| - 1;
      ScanExtends(data, more[..n], c);
      var all := data + more;
      assert all[..|all| - 1] == data + more[..n];
      ScanSnoc(all);
      StepCases(Scan(data + more[..n]), all[|all| - 1]);
    } else {
      assert data + more == data;
    }
  }

  /** Every stored record has the stored shape. */
  lemma {:induction false} StoredShape(data: seq<Record>, c: Category, r: Record)
    requires r in Scan(data).buckets.Get(c)
    ensures IsStoredShape(r)
    decreases |data|
  {
    var n := |data| - 1;
    var p := data[..n];
    ScanSnoc(data);
    StepCases(Scan(p), data[n]);
    if r in Scan(p).buckets.Get(c) {
      StoredShape(p, c, r);
    } else {
      CleanedShape(data[n]);
    }
  }

  /** Row `i` of `data` is a stored row whose cleaned form is `r`, and the cursor stood at `c` when it was scanned. */
  predicate StoredFrom(data: seq<Record>, i: nat, c: Category, r: Record) {
    i < |data| && Qualifies(data[i]) && r == Cleaned(data[i]) && CursorAfter(data[..i]) == c
  }

  /** A row's provenance does not change when more rows follow it. */
  lemma StoredFromPrefix(data: seq<Record>, n: nat, i: nat, c: Category, r: Record)
    requires n <= |data| && StoredFrom(data[..n], i, c, r)
    ensures StoredFrom(data, i, c, r)
  {
    assert data[..n][i] == data[i];
    PrefixOfPrefix(data, n, i);
  }

  /**
   * Every stored record is the cleaned form of a non-marker row with a
   * `PROJETO` value, scanned while the marker rows above it named its bucket.
   */
  lemma {:induction false} StoredRecordOrigin(data: seq<Record>, c: Category, r: Record)
    requires r in Scan(data).buckets.Get(c)
    ensures exists i :: StoredFrom(data, i, c, r)
    decreases |data|
  {
    var n := |data| - 1;
    var p := data[..n];
    var s := Scan(p);
    ScanSnoc(data);
    StepCases(s, data[n]);
    if r in s.buckets.Get(c) {
      StoredRecordOrigin(p, c, r);
      var i :| StoredFrom(p, i, c, r);
      StoredFromPrefix(data, n, i, c, r);
    } else {
      ScanCursor(p);
      assert StoredFrom(data, n, c, r);
    }
  }

  lemma PrefixOfPrefix(data: seq<Record>, n: nat, i: nat)
    requires i <= n <= |data|
    ensures data[..n][..i] == data[..i]
  {
  }

  /**
   * What bucket `c` holds after scanning `data`, defined row by row: the
   * cleaned form of every qualifying row scanned while the marker rows above
   * it named `c`, in grid order.
   */
  function Picked(data: seq<Record>, c: Category): seq<Record>
    decreases |data|
  {
    if data == [] then []
    else
      var n := |data| - 1;
      Picked(data[..n], c) + PickAt(data[n], CursorAfter(data[..n]), c)
  }

  /** What one row adds to bucket `c` when scanned with the cursor at `cursor`. */
  function PickAt(row: Record, cursor: Category, c: Category): seq<Record> {
    if Qualifies(row) && cursor == c then [Cleaned(row)] else []
  }

  /** The scan fills each bucket with exactly its picked rows, in order. */
  lemma {:induction false} ScanPicks(data: seq<Record>, c: Category)
    ensures Scan(data).buckets.Get(c) == Picked(data, c)
    decreases |data|
  {
    if data != [] {
      var n := |data| - 1;
      ScanPicks(data[..n], c);
      ScanSnoc(data);
      ScanCursor(data[..n]);
      StepCases(Scan(data[..n]), data[n]);
    }
  }

  /** A qualifying row is picked for the bucket the marker rows above it name. */
  lemma {:induction false} PickedRow(data: seq<Record>, i: nat)
    requires i < |data| && Qualifies(data[i])
    ensures Cleaned(data[i]) in Picked(data, CursorAfter(data[..i]))
    decreases |data|
  {
    var n := |data| - 1;
    var c := CursorAfter(data[..i]);
    var p := data[..n];
    PickedSnoc(data, c);
    if i < n {
      assert p[i] == data[i];
      PrefixOfPrefix(data, n, i);
      PickedRow(p, i);
    } else {
      assert p == data[..i];
      assert PickAt(data[n], CursorAfter(p), c) == [Cleaned(data[i])];
    }
  }

  /** Picking from one more row. */
  lemma PickedSnoc(data: seq<Record>, c: Category)
    requires data != []
    ensures Picked(data, c) == Picked(data[..|data| - 1], c) + PickAt(data[|data| - 1], CursorAfter(data[..|data| - 1]), c)
  {
  }

  /** A qualifying row is stored, cleaned, in the bucket the marker rows above it name. */
  lemma QualifyingStored(data: seq<Record>, i: nat)
    requires i < |data| && Qualifies(data[i])
    ensures Cleaned(data[i]) in Scan(data).buckets.Get(CursorAfter(data[..i]))
  {
    PickedRow(data, i);
    ScanPicks(data, CursorAfter(data[..i]));
  }

  /** The number of rows of `data` that the scan stores. */
  function QualifyingCount(data: seq<Record>): nat
    decreases |data|
  {
    if data == [] then 0
    else QualifyingCount(data[..|data| - 1]) + (if Qualifies(data[|data| - 1]) then 1 else 0)
  }

  /**
   * The buckets hold one record per qualifying row, so never more records
   * than rows; marker rows and rows without a `PROJETO` value are dropped.
   */
  lemma {:induction false} TotalStored(data: seq<Record>)
    ensures Scan(data).buckets.Total() == QualifyingCount(data) <= |data|
    decreases |data|
  {
    if data != [] {
      var n := |data| - 1;
      TotalStored(data[..n]);
      ScanSnoc(data);
      StepCases(Scan(data[..n]), data[n]);
    }
  }
}
