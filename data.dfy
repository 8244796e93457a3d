/** The static dataset of the financial-verification video: two 5x5 company
    tables (the Bloomberg export and the figures extracted from the annual
    reports), the column key and label tables, the list of annotated
    differences between the two tables, and the scene timing table. */
module Data {
  import opened Util

  /** One row of either table; every figure is kept as its display string. */
  datatype Company = Company(name: string, revenue: string, netIncome: string, ebitda: string, assets: string)

  /** The keys of a company record (`keyof CompanyData`). */
  datatype Key = Name | Revenue | NetIncome | Ebitda | Assets

  /** The property name a key stands for. */
  function KeyName(k: Key): string {
    match k
    case Name => "name"
    case Revenue => "revenue"
    case NetIncome => "netIncome"
    case Ebitda => "ebitda"
    case Assets => "assets"
  }

  /** `row[key]`. */
  function Field(row: Company, k: Key): string {
    match k
    case Name => row.name
    case Revenue => row.revenue
    case NetIncome => row.netIncome
    case Ebitda => row.ebitda
    case Assets => row.assets
  }

  /** The annotation of one differing cell. */
  datatype MismatchInfo = MismatchInfo(row: int, column: Key, columnIndex: int, excelValue: string, pdfValue: string)

  /** One entry of the scene timing table. */
  datatype Timing = Timing(from: int, duration: int)

  const EXCEL_DATA: seq<Company> := [
    Company("Acme Corp", "$4,250M", "$890M", "$1,120M", "$8,450M"),
    Company("Global Industries", "$7,830M", "$1,245M", "$2,340M", "$15,670M"),
    Company("TechVision Inc", "$2,150M", "$412M", "$680M", "$5,230M"),
    Company("Summit Financial", "$5,670M", "$1,890M", "$2,380M", "$22,100M"),
    Company("Meridian Group", "$3,420M", "$567M", "$890M", "$9,780M")
  ]

  const PDF_DATA: seq<Company> := [
    Company("Acme Corp", "$4,250M", "$890M", "$1,120M", "$8,450M"),
    Company("Global Industries", "$7,830M", "$1,245M", "$2,340M", "$15,670M"),
    Company("TechVision Inc", "$2,150M", "$425M", "$680M", "$5,230M"),
    Company("Summit Financial", "$5,670M", "$1,890M", "$2,450M", "$22,100M"),
    Company("Meridian Group", "$3,420M", "$567M", "$890M", "$9,870M")
  ]

  const COLUMN_KEYS: seq<Key> := [Name, Revenue, NetIncome, Ebitda, Assets]

  const COLUMN_LABELS: seq<string> := ["Unternehmen", "Umsatz", "Nettoergebnis", "EBITDA", "Verm\U{00F6}gen"]

  const MISMATCHES: seq<MismatchInfo> := [
    MismatchInfo(2, NetIncome, 2, "$412M", "$425M"),
    MismatchInfo(3, Ebitda, 3, "$2,380M", "$2,450M"),
    MismatchInfo(4, Assets, 4, "$9,780M", "$9,870M")
  ]

  const FPS: int := 30
  const DURATION: int := 2700

  /** `SCENE_TIMING.scene1` .. `SCENE_TIMING.scene6`, at indices 0 .. 5. */
  const SCENE_TIMING: seq<Timing> := [
    Timing(0, 300),
    Timing(300, 450),
    Timing(750, 450),
    Timing(1200, 600),
    Timing(1800, 600),
    Timing(2400, 300)
  ]

  /** The value of column `col` of a row, looked up through `COLUMN_KEYS`. */
  function CellAt(row: Company, col: nat): string
    requires col < |COLUMN_KEYS|
  {
    Field(row, COLUMN_KEYS[col])
  }

  /** Cell `(r, c)` is annotated by some entry of `MISMATCHES`. */
  predicate Annotated(r: int, c: int) {
    exists i :: 0 <= i < |MISMATCHES| && MISMATCHES[i].row == r && MISMATCHES[i].columnIndex == c
  }

  /** The annotated cells, listed. */
  lemma AnnotatedCells(r: int, c: int)
    ensures Annotated(r, c) <==> (r == 2 && c == 2) || (r == 3 && c == 3) || (r == 4 && c == 4)
  {
    if (r == 2 && c == 2) || (r == 3 && c == 3) || (r == 4 && c == 4) {
      var i := r - 2;
      assert MISMATCHES[i].row == r && MISMATCHES[i].columnIndex == c;
    }
  }

  /** What an annotation must satisfy to describe a real difference. */
  predicate WellFormedMismatch(m: MismatchInfo) {
    && 0 <= m.row < |EXCEL_DATA|
    && 1 <= m.columnIndex < |COLUMN_KEYS|
    && COLUMN_KEYS[m.columnIndex] == m.column
    && m.excelValue == Field(EXCEL_DATA[m.row], m.column)
    && m.pdfValue == Field(PDF_DATA[m.row], m.column)
    && m.excelValue != m.pdfValue
  }

  /** Both tables list the same five companies in the same order. */
  lemma TablesAligned()
    ensures |EXCEL_DATA| == |PDF_DATA| == 5
    ensures forall r :: 0 <= r < |EXCEL_DATA| ==> EXCEL_DATA[r].name == PDF_DATA[r].name
  {
  }

  /** Five column keys and five labels; the first column is the company name. */
  lemma ColumnTables()
    ensures |COLUMN_KEYS| == |COLUMN_LABELS| == 5
    ensures COLUMN_KEYS[0] == Name && KeyName(COLUMN_KEYS[0]) == "name"
    ensures forall i, j :: 0 <= i < j < |COLUMN_KEYS| ==> COLUMN_KEYS[i] != COLUMN_KEYS[j]
  {
  }

  /** Every annotation points at a numeric cell in range, names the key of
      that column, and quotes the two differing values the tables hold. */
  lemma MismatchesWellFormed()
    ensures forall i :: 0 <= i < |MISMATCHES| ==> WellFormedMismatch(MISMATCHES[i])
  {
  }

  /** No two annotations describe the same cell. */
  lemma MismatchesDistinct()
    ensures forall i, j :: 0 <= i < j < |MISMATCHES| ==>
      (MISMATCHES[i].row, MISMATCHES[i].columnIndex) != (MISMATCHES[j].row, MISMATCHES[j].columnIndex)
  {
  }

  /** The annotations are exactly the cells where the two tables differ. */
  lemma DifferencesAreAnnotated()
    ensures forall r, c :: 0 <= r < |EXCEL_DATA| && 0 <= c < |COLUMN_KEYS| ==>
      (CellAt(EXCEL_DATA[r], c) != CellAt(PDF_DATA[r], c) <==> Annotated(r, c))
  {
    forall r, c | 0 <= r < |EXCEL_DATA| && 0 <= c < |COLUMN_KEYS|
      ensures CellAt(EXCEL_DATA[r], c) != CellAt(PDF_DATA[r], c) <==> Annotated(r, c)
    {
      if r == 2 && c == 2 {
        assert MISMATCHES[0].row == r && MISMATCHES[0].columnIndex == c;
      } else if r == 3 && c == 3 {
        assert MISMATCHES[1].row == r && MISMATCHES[1].columnIndex == c;
      } else if r == 4 && c == 4 {
        assert MISMATCHES[2].row == r && MISMATCHES[2].columnIndex == c;
      } else {
        assert EXCEL_DATA[r] == PDF_DATA[r] || (r == 2 && c != 2) || (r == 3 && c != 3) || (r == 4 && c != 4);
      }
    }
  }

  /** The scene windows follow each other without gap: scene 1 starts at 0
      and every later scene starts where the previous one ends. */
  lemma SceneTimingContiguous()
    ensures |SCENE_TIMING| == 6 && SCENE_TIMING[0].from == 0
    ensures forall k :: 0 < k < |SCENE_TIMING| ==>
      SCENE_TIMING[k].from == SCENE_TIMING[k - 1].from + SCENE_TIMING[k - 1].duration
    ensures forall k :: 0 <= k < |SCENE_TIMING| ==> SCENE_TIMING[k].duration > 0
  {
  }

  /** The last scene ends exactly at `DURATION`, which is 90 seconds at `FPS`. */
  lemma SceneTimingEndsAtDuration()
    ensures SCENE_TIMING[5].from + SCENE_TIMING[5].duration == DURATION
    ensures DURATION == 90 * FPS
  {
  }
}
