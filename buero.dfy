/** The office-network video: a background layer and four scene sequences
    (title, network topology, inventory table, issues), the inventory table
    with its per-row entrance, stripe and problem cell, and the animated
    connection lines of the topology scene. A connection's eased `progress`
    is a parameter clamped to [0, 1]. */
module BueroNetzwerk {
  import opened Util
  import opened Sequencer

  const FPS: int := 30

  /** The length the composition is registered with. */
  const REGISTERED_DURATION: int := 600

  /** The four scene sequences, in declaration order. */
  const SCENES: seq<Window> := [
    Window(0, 5 * FPS, 10),
    Window(5 * FPS, 7 * FPS, 15),
    Window(12 * FPS, 5 * FPS, 15),
    Window(17 * FPS, 3 * FPS, 15)
  ]

  /** The windows are (0, 150), (150, 210), (360, 150) and (510, 90): they
      tile [0, 600), exactly the registered length. */
  lemma ScenesTileRegisteredLength()
    ensures SCENES[0].from == 0 && SCENES[0].duration == 150
    ensures SCENES[1].from == 150 && SCENES[1].duration == 210
    ensures SCENES[2].from == 360 && SCENES[2].duration == 150
    ensures SCENES[3].from == 510 && SCENES[3].duration == 90
    ensures Contiguous(SCENES, 0)
    ensures EndOf(SCENES, 0) == REGISTERED_DURATION
  {
    var s3 := SCENES[1..][1..][1..];
    var s2 := SCENES[1..][1..];
    var s1 := SCENES[1..];
    assert s3[1..] == [] && s3 == [Window(510, 90, 15)];
    assert Contiguous(s3, 510) && EndOf(s3, 510) == 600;
    assert s2 == [Window(360, 150, 15)] + s3;
    assert Contiguous(s2, 360) && EndOf(s2, 360) == 600;
    assert s1 == [Window(150, 210, 15)] + s2;
    assert Contiguous(s1, 150) && EndOf(s1, 150) == 600;
  }

  /** Each premount is no longer than the previous scene, so a premounted
      scene overlaps only the scene just before it; the first scene's
      premount lies before frame 0. */
  lemma PremountsOverlapOnlyPrevious(k: nat, f: int)
    requires 0 < k < |SCENES|
    requires Classify(SCENES[k], f) == Premounted
    ensures Classify(SCENES[k - 1], f) == Visible(f - SCENES[k - 1].from)
    ensures 0 <= SCENES[k].premount <= SCENES[k - 1].duration
  {
    ScenesTileRegisteredLength();
    PremountInsidePrevious(SCENES, 0, k, f);
  }

  /** Every frame of the composition shows exactly one scene. */
  lemma ExactlyOneScene(f: int)
    requires 0 <= f < REGISTERED_DURATION
    ensures exists k :: 0 <= k < |SCENES| && IsVisible(SCENES[k], f)
    ensures forall i, j ::
      0 <= i < |SCENES| && 0 <= j < |SCENES| && IsVisible(SCENES[i], f) && IsVisible(SCENES[j], f) ==> i == j
  {
    ScenesTileRegisteredLength();
    TilingCovers(SCENES, 0, f);
    forall i, j | 0 <= i < |SCENES| && 0 <= j < |SCENES| && IsVisible(SCENES[i], f) && IsVisible(SCENES[j], f)
      ensures i == j
    {
      TilingDisjoint(SCENES, 0, f, i, j);
    }
  }

  /** Frame 200 shows the topology scene at its local frame 50 and no other
      scene; from frame 600 on no scene is visible. */
  lemma SampleFrames(f: int)
    requires f >= REGISTERED_DURATION
    ensures Classify(SCENES[1], 200) == Visible(50)
    ensures forall k :: 0 <= k < |SCENES| && k != 1 ==> !IsVisible(SCENES[k], 200)
    ensures forall k :: 0 <= k < |SCENES| ==> !IsVisible(SCENES[k], f)
  {
  }

  datatype InventoryItem = InventoryItem(nr: int, kind: string, model: string, ip: string,
                                         location: string, issue: Option<string>)

  const INVENTORY: seq<InventoryItem> := [
    InventoryItem(1, "Router", "Fritz!Box 7590", "192.168.1.1", "Serverraum", None),
    InventoryItem(2, "Switch", "Netgear GS108E", "192.168.1.2", "Serverraum", None),
    InventoryItem(3, "Access Point", "Ubiquiti UAP-AC-Lite", "192.168.1.10", "Empfang", Some("Kein WLAN-Passwort")),
    InventoryItem(4, "Workstation", "Dell OptiPlex 3080", "192.168.1.101", "Arbeitsplatz 1", Some("Keine Updates")),
    InventoryItem(5, "Workstation", "HP EliteDesk 800", "192.168.1.102", "Arbeitsplatz 2", Some("Manuell zugewiesen")),
    InventoryItem(6, "Drucker", "HP LaserJet Pro", "192.168.1.50", "Druckerraum", Some("Nicht pingbar")),
    InventoryItem(7, "Access Point", "Ubiquiti UAP-AC-Lite", "\U{2014}", "Meetingraum", Some("Nicht dokumentiert"))
  ]

  /** The row numbers are 1 .. 7 in order, so the row keys are unique. */
  lemma InventoryKeysUnique()
    ensures forall i :: 0 <= i < |INVENTORY| ==> INVENTORY[i].nr == i + 1
    ensures forall i, j :: 0 <= i < j < |INVENTORY| ==> INVENTORY[i].nr != INVENTORY[j].nr
  {
  }

  /** The frame at which row `rowIdx`'s entrance spring starts. */
  function RowTrigger(rowIdx: nat): (t: int)
    ensures t >= 10
  {
    10 + rowIdx * 5
  }

  /** Rows enter five frames apart, in order. */
  lemma RowTriggerIncreasing(i: nat, j: nat)
    requires i < j
    ensures RowTrigger(i) < RowTrigger(j)
    ensures RowTrigger(j) - RowTrigger(i) == 5 * (j - i)
  {
  }

  datatype Stripe = DarkStripe | LightStripe

  /** The row background alternates with the row's parity. */
  function RowStripe(rowIdx: nat): (s: Stripe)
    ensures s == DarkStripe <==> rowIdx % 2 == 0
  {
    if rowIdx % 2 == 0 then DarkStripe else LightStripe
  }

  /** Neighbouring rows never share a stripe. */
  lemma StripesAlternate(rowIdx: nat)
    ensures RowStripe(rowIdx) != RowStripe(rowIdx + 1)
    ensures RowStripe(rowIdx) == RowStripe(rowIdx + 2)
  {
  }

  /** The text of the problem cell: a warning sign and the issue, or a check
      mark and "OK". */
  function ProblemCell(item: InventoryItem): (s: string)
    ensures item.issue.Some? ==> s == "\U{26A0} " + item.issue.value
    ensures item.issue.None? ==> s == "\U{2713} OK"
  {
    if item.issue.Some? then "\U{26A0} " + item.issue.value else "\U{2713} OK"
  }

  /** The two kinds of cell text can be told apart by their first
      character, so a row is flagged exactly when it has an issue. */
  lemma ProblemCellFlagsIssues(item: InventoryItem)
    ensures |ProblemCell(item)| >= 1
    ensures ProblemCell(item)[0] == '\U{26A0}' <==> item.issue.Some?
  {
  }

  /** The indices of the rows with an issue. */
  function IssueRows(items: seq<InventoryItem>): set<int> {
    set i | 0 <= i < |items| && items[i].issue.Some?
  }

  /** The number of rows with an issue. */
  function IssueCount(items: seq<InventoryItem>): (n: nat)
    ensures n == |IssueRows(items)|
    ensures n <= |items|
  {
    if |items| == 0 then
      assert IssueRows(items) == {};
      0
    else
      IssueRowsStep(items);
      IssueCount(items[..|items| - 1]) + (if items[|items| - 1].issue.Some? then 1 else 0)
  }

  /** The rows with an issue are those of all rows but the last, plus the
      last one when it has an issue. */
  lemma IssueRowsStep(items: seq<InventoryItem>)
    requires |items| > 0
    ensures |IssueRows(items)| ==
      |IssueRows(items[..|items| - 1])| + (if items[|items| - 1].issue.Some? then 1 else 0)
  {
    var last := |items| - 1;
    var init := IssueRows(items[..last]);
    var tail: set<int> := if items[last].issue.Some? then {last} else {};
    assert IssueRows(items) == init + tail;
    assert init * tail == {};
  }

  /** The text of the counter badge is fixed, not computed from the table. */
  const BADGE_TEXT: string := "4 Probleme erkannt"

  /** Five rows carry an issue while the badge reads four. */
  lemma BadgeDisagreesWithTable()
    ensures IssueCount(INVENTORY) == 5
    ensures BADGE_TEXT[..2] == "4 " && IssueCount(INVENTORY) != 4
  {
    InventoryIssueRows();
  }

  /** Rows 3 to 7 (indices 2 to 6) carry an issue, rows 1 and 2 do not. */
  lemma InventoryIssueRows()
    ensures IssueRows(INVENTORY) == {2, 3, 4, 5, 6}
  {
    assert |INVENTORY| == 7;
    assert INVENTORY[0].issue.None? && INVENTORY[1].issue.None?;
    assert forall i :: 2 <= i < 7 ==> INVENTORY[i].issue.Some?;
  }

  /** One coordinate of the drawn end of a connection line. */
  function Lerp(a: real, b: real, progress: real): real {
    a + (b - a) * progress
  }

  /** At progress 0 the coordinate is the start, at 1 the end, and in
      between it stays between the two. */
  lemma LerpBounds(a: real, b: real, progress: real)
    requires 0.0 <= progress <= 1.0
    ensures progress == 0.0 ==> Lerp(a, b, progress) == a
    ensures progress == 1.0 ==> Lerp(a, b, progress) == b
    ensures a <= b ==> a <= Lerp(a, b, progress) <= b
    ensures b < a ==> b <= Lerp(a, b, progress) <= a
  {
    var d := b - a;
    assert d * progress + d * (1.0 - progress) == d;
    if d >= 0.0 {
      MulNonNegative(d, progress);
      MulNonNegative(d, 1.0 - progress);
    } else {
      MulNonNegative(-d, progress);
      MulNonNegative(-d, 1.0 - progress);
    }
  }

  lemma MulNonNegative(x: real, y: real)
    requires x >= 0.0 && y >= 0.0
    ensures x * y >= 0.0
  {
  }

  /** The drawn end of a connection line: `(x1, y1) + (x2 - x1, y2 - y1) * progress`. */
  function Endpoint(x1: real, y1: real, x2: real, y2: real, progress: real): (p: (real, real))
    requires 0.0 <= progress <= 1.0
    ensures progress == 0.0 ==> p == (x1, y1)
    ensures progress == 1.0 ==> p == (x2, y2)
    ensures (if x1 <= x2 then x1 <= p.0 <= x2 else x2 <= p.0 <= x1)
    ensures (if y1 <= y2 then y1 <= p.1 <= y2 else y2 <= p.1 <= y1)
  {
    LerpBounds(x1, x2, progress);
    LerpBounds(y1, y2, progress);
    (Lerp(x1, x2, progress), Lerp(y1, y2, progress))
  }

  /** The connection lines of the topology scene with their start delays. */
  datatype Connection = Connection(x1: int, y1: int, x2: int, y2: int, delay: int, dashed: bool)

  const CONNECTIONS: seq<Connection> := [
    Connection(960, 175, 960, 310, 10, false),
    Connection(960, 365, 340, 500, 20, false),
    Connection(960, 365, 600, 500, 22, false),
    Connection(960, 365, 960, 500, 24, false),
    Connection(960, 365, 1320, 500, 26, false),
    Connection(960, 365, 1580, 500, 28, false),
    Connection(960, 365, 340, 680, 30, true),
    Connection(960, 365, 1580, 680, 32, true),
    Connection(340, 735, 200, 860, 38, true),
    Connection(340, 735, 480, 860, 40, true),
    Connection(1580, 735, 1440, 860, 42, true),
    Connection(1580, 735, 1720, 860, 44, true)
  ]

  /** The lines start drawing in declaration order, and each has finished
      its 15-frame draw well inside the topology scene. */
  lemma ConnectionsDrawInOrder()
    ensures forall i, j :: 0 <= i < j < |CONNECTIONS| ==> CONNECTIONS[i].delay < CONNECTIONS[j].delay
    ensures forall i :: 0 <= i < |CONNECTIONS| ==> CONNECTIONS[i].delay + 15 <= SCENES[1].duration
  {
  }
}
