/**
 * The task-card bookkeeping of the main window (ui.py:422-522): which
 * cards exist, in which list each one sits, the value its progress bar was
 * last given, and the last progress value recorded per task. `Board` is
 * that bookkeeping as a value, with one step function per callback;
 * `MainWin` keeps it in objects and is proved to follow the steps.
 */
module Cards {
  import opened TaskStatus

  /** `_phase`: "q" for the queue list, "d" for the finished list. */
  datatype Phase = InQueue | InFinished

  /** What the bookkeeping keeps of one card: its list and its bar value. */
  datatype CardView = CardView(phase: Phase, bar: int)

  /** `_cards` (seen through each card) and `_last_prog`. */
  datatype Board = Board(cards: map<int, CardView>, last: map<int, int>)

  const Empty: Board := Board(map[], map[])

  /** `_last_prog.get(id, -1)`. */
  function LastOf(b: Board, id: int): int {
    if id in b.last then b.last[id] else -1
  }

  /** A value of 100 or more is shown as 99. */
  function Capped(prog: int): (r: int)
    ensures r <= 99 && r <= prog && (prog <= 99 ==> r == prog)
    ensures prog >= 100 ==> r == 99
  {
    if prog >= 100 then 99 else prog
  }

  /** `_add_card`: a new card in the queue list, bar at 0. */
  function AddStep(b: Board, id: int): Board {
    b.(cards := b.cards[id := CardView(InQueue, 0)])
  }

  /** `_on_task_progress` (ui.py:462-475). */
  function ProgressStep(b: Board, id: int, prog: int): Board {
    var last := LastOf(b, id);
    if prog < last then b
    else
      var p := Capped(prog);
      if p == last then b
      else Board(if id in b.cards then b.cards[id := b.cards[id].(bar := p)] else b.cards, b.last[id := p])
  }

  /** The two status texts that finish a card. */
  predicate IsDoneText(st: string) {
    st == "Готово" || st == "done"
  }

  /** The status text that removes a card. */
  const RemovedText: string := "Отменено"

  /** `_on_task_status` (ui.py:483-522), as far as the bookkeeping goes. */
  function StatusStep(b: Board, id: int, st: string): Board {
    if st == RemovedText then b.(cards := b.cards - {id})
    else if id in b.cards && IsDoneText(st) then
      Board(b.cards[id := CardView(InFinished, 100)], b.last[id := 100])
    else b
  }

  /**
   * `_delete_file` (ui.py:199-215), as far as the bookkeeping goes: `path`
   * is the record's path ("" when unknown), `unlinked` whether removing the
   * file raised no error. Only then does the card go.
   */
  function DeleteStep(b: Board, id: int, path: string, unlinked: bool): Board {
    if path == "" || !unlinked then b
    else b.(cards := b.cards - {id})
  }

  // ---------- progress ----------

  /**
   * A progress update changes the board exactly when the value is not below
   * the recorded one and its capped form differs from it. Then the capped
   * value is recorded, whether or not a card exists, and a card's bar shows
   * it; no other task and no card's list is touched.
   */
  lemma ProgressCases(b: Board, id: int, prog: int)
    ensures var r := ProgressStep(b, id, prog);
      && (r != b <==> prog >= LastOf(b, id) && Capped(prog) != LastOf(b, id))
      && (r != b ==>
            && r.last == b.last[id := Capped(prog)]
            && r.cards.Keys == b.cards.Keys
            && (id in b.cards ==> r.cards[id] == b.cards[id].(bar := Capped(prog)))
            && (forall k | k in b.cards && k != id :: r.cards[k] == b.cards[k]))
  {
    var r := ProgressStep(b, id, prog);
    if prog >= LastOf(b, id) && Capped(prog) != LastOf(b, id) {
      assert r.last[id] != LastOf(b, id);
      assert id !in b.last || r.last[id] != b.last[id];
    }
  }

  /**
   * While the recorded value is at most 99, an update never lowers it and
   * never takes it past 99; an accepted one raises it strictly.
   */
  lemma ProgressNeverFalls(b: Board, id: int, prog: int)
    requires LastOf(b, id) <= 99
    ensures var r := ProgressStep(b, id, prog);
      && LastOf(b, id) <= LastOf(r, id) <= 99
      && (r != b ==> LastOf(b, id) < LastOf(r, id))
      && (forall k | k != id :: LastOf(r, k) == LastOf(b, k))
  {
    ProgressCases(b, id, prog);
  }

  /** Replays a run of progress values for one task. */
  function ApplyProgress(b: Board, id: int, progs: seq<int>): Board
    decreases |progs|
  {
    if progs == [] then b else ApplyProgress(ProgressStep(b, id, progs[0]), id, progs[1..])
  }

  /**
   * Over any run of progress values the recorded value never falls and
   * stays at most 99, and a card that exists keeps showing it once the bar
   * has caught up with it.
   */
  lemma {:induction false} ProgressRunMonotone(b: Board, id: int, progs: seq<int>)
    requires LastOf(b, id) <= 99
    ensures var r := ApplyProgress(b, id, progs);
      && LastOf(b, id) <= LastOf(r, id) <= 99
      && r.cards.Keys == b.cards.Keys
      && (id in b.cards && b.cards[id].bar == LastOf(b, id) ==> r.cards[id].bar == LastOf(r, id))
    decreases |progs|
  {
    if progs != [] {
      var s := ProgressStep(b, id, progs[0]);
      ProgressNeverFalls(b, id, progs[0]);
      ProgressCases(b, id, progs[0]);
      ProgressRunMonotone(s, id, progs[1..]);
    }
  }

  /**
   * As written, the guard compares with the recorded value before capping:
   * once a finished card has recorded 100, a later value of 100 or more is
   * recorded and shown as 99.
   */
  lemma ProgressAfterDoneShows99(b: Board, id: int, prog: int)
    requires LastOf(b, id) == 100 && prog >= 100 && id in b.cards
    ensures var r := ProgressStep(b, id, prog);
      LastOf(r, id) == 99 && r.cards[id].bar == 99
  {
  }

  // ---------- status ----------

  /**
   * "Отменено" removes the card and keeps the recorded progress; "Готово"
   * or "done" puts an existing card into the finished list with its bar at
   * 100 and records 100; any other status changes no bookkeeping, and
   * neither does a finishing status for a task without a card.
   */
  lemma StatusCases(b: Board, id: int, st: string)
    ensures var r := StatusStep(b, id, st);
      && (st == RemovedText ==> r.cards == b.cards - {id} && r.last == b.last)
      && (st != RemovedText && id in b.cards && IsDoneText(st) ==>
            && r.cards == b.cards[id := CardView(InFinished, 100)]
            && r.last == b.last[id := 100])
      && (st != RemovedText && (id !in b.cards || !IsDoneText(st)) ==> r == b)
  {
  }

  /**
   * The statuses the manager sends: only the active-cancel text "Отменено"
   * removes the card, so a queued task canceled as "canceled" keeps it; only
   * "Готово" finishes it; the rest leave the bookkeeping alone.
   */
  lemma ManagerStatusesOnCards(b: Board, id: int, s: Status)
    requires id in b.cards
    ensures var r := StatusStep(b, id, Text(s));
      && (id in r.cards <==> s != CanceledActive)
      && (s == Done ==> r.cards[id] == CardView(InFinished, 100) && LastOf(r, id) == 100)
      && (s != Done && s != CanceledActive ==> r == b)
  {
    if s.Error? {
      ErrorTextShape(s);
      assert Text(s)[..|ErrorHead|] == ErrorHead;
      assert Text(s)[0] == ErrorHead[0] && Text(s)[1] == ErrorHead[1];
      assert RemovedText[1] != Text(s)[1];
      assert "Готово"[0] != Text(s)[0] && "done"[0] != Text(s)[0];
    }
  }

  /** A card in the finished list never returns to the queue list, under any step but its own removal. */
  lemma FinishedStaysFinished(b: Board, id: int, k: int, prog: int, st: string)
    requires k in b.cards && b.cards[k].phase == InFinished
    ensures k in ProgressStep(b, id, prog).cards && ProgressStep(b, id, prog).cards[k].phase == InFinished
    ensures k in StatusStep(b, id, st).cards ==> StatusStep(b, id, st).cards[k].phase == InFinished
    ensures k !in StatusStep(b, id, st).cards <==> st == RemovedText && k == id
  {
  }

  /**
   * Deleting the file removes the card exactly when the path is known and
   * the removal succeeded; the recorded progress and every other card stay.
   */
  lemma DeleteCases(b: Board, id: int, path: string, unlinked: bool)
    ensures var r := DeleteStep(b, id, path, unlinked);
      && r.last == b.last
      && (id in r.cards <==> id in b.cards && (path == "" || !unlinked))
      && (forall k | k in b.cards && k != id :: k in r.cards && r.cards[k] == b.cards[k])
      && (forall k | k in r.cards :: k in b.cards)
  {
  }

  // ---------- tab counts ----------

  /** `_update_counts`: cards in the queue list. */
  function QueueCount(b: Board): nat {
    |set k | k in b.cards && b.cards[k].phase == InQueue|
  }

  /** `_update_counts`: cards in the finished list. */
  function FinishedCount(b: Board): nat {
    |set k | k in b.cards && b.cards[k].phase == InFinished|
  }

  /** Every card is counted in exactly one tab. */
  lemma CountsPartition(b: Board)
    ensures QueueCount(b) + FinishedCount(b) == |b.cards|
  {
    var q := set k | k in b.cards && b.cards[k].phase == InQueue;
    var d := set k | k in b.cards && b.cards[k].phase == InFinished;
    assert d == b.cards.Keys - q;
    SplitCard(b.cards.Keys, q);
  }

  lemma SplitCard(a: set<int>, q: set<int>)
    requires q <= a
    ensures |q| + |a - q| == |a|
  {
    assert a == q + (a - q);
  }

  /** Deleting the file of a finished card takes one from the finished tab and leaves the queue tab. */
  lemma DeleteDropsOneCount(b: Board, id: int, path: string)
    requires id in b.cards && b.cards[id].phase == InFinished && path != ""
    ensures QueueCount(DeleteStep(b, id, path, true)) == QueueCount(b)
    ensures FinishedCount(DeleteStep(b, id, path, true)) == FinishedCount(b) - 1
  {
    var r := DeleteStep(b, id, path, true);
    var q := set k | k in b.cards && b.cards[k].phase == InQueue;
    var d := set k | k in b.cards && b.cards[k].phase == InFinished;
    var q' := set k | k in r.cards && r.cards[k].phase == InQueue;
    var d' := set k | k in r.cards && r.cards[k].phase == InFinished;
    assert q' == q;
    assert d' == d - {id};
  }

  /** Finishing a queued card moves one from the queue tab to the finished tab. */
  lemma DoneMovesOneCount(b: Board, id: int, st: string)
    requires id in b.cards && b.cards[id].phase == InQueue && IsDoneText(st)
    ensures QueueCount(StatusStep(b, id, st)) == QueueCount(b) - 1
    ensures FinishedCount(StatusStep(b, id, st)) == FinishedCount(b) + 1
  {
    var r := StatusStep(b, id, st);
    assert st != RemovedText;
    var q := set k | k in b.cards && b.cards[k].phase == InQueue;
    var d := set k | k in b.cards && b.cards[k].phase == InFinished;
    var q' := set k | k in r.cards && r.cards[k].phase == InQueue;
    var d' := set k | k in r.cards && r.cards[k].phase == InFinished;
    assert q' == q - {id};
    assert d' == d + {id};
  }

  // ---------- the window's objects ----------

  /** `TaskCard`: its id and title are fixed, its list and its bar change. */
  class Card {
    const id: int
    const title: string
    var phase: Phase
    var bar: int

    constructor (id: int, title: string)
      ensures this.id == id && this.title == title && phase == InQueue && bar == 0
    {
      this.id := id;
      this.title := title;
      phase := InQueue;
      bar := 0;
    }
  }

  /** The part of `MainWin` that keeps `_cards` and `_last_prog`. */
  class MainWin {
    var cards: map<int, Card>
    var lastProg: map<int, int>

    /** No card object is filed under two ids. */
    ghost predicate Valid()
      reads this
    {
      forall j, k | j in cards && k in cards && j != k :: cards[j] != cards[k]
    }

    /** The bookkeeping as a value. */
    function View(): Board
      reads this, cards.Values
    {
      Board(map k | k in cards :: CardView(cards[k].phase, cards[k].bar), lastProg)
    }

    constructor ()
      ensures Valid() && View() == Empty
    {
      cards := map[];
      lastProg := map[];
    }

    /** `_on_task_added` / `_add_card` (ui.py:423-437): an empty title is shown as "—". */
    method OnTaskAdded(id: int, title: string)
      requires Valid()
      modifies this
      ensures Valid()
      ensures View() == AddStep(old(View()), id)
      ensures id in cards && fresh(cards[id]) && cards[id].title == (if title == "" then "—" else title)
    {
      var c := new Card(id, if title == "" then "—" else title);
      cards := cards[id := c];
    }

    /** `_on_task_progress` (ui.py:462-475). */
    method OnTaskProgress(id: int, prog: int)
      requires Valid()
      modifies this, cards.Values
      ensures Valid() && cards == old(cards)
      ensures View() == ProgressStep(old(View()), id, prog)
    {
      var last := if id in lastProg then lastProg[id] else -1;
      if prog < last {
        return;
      }
      var p := prog;
      if p >= 100 {
        p := 99;
      }
      if p == last {
        return;
      }
      lastProg := lastProg[id := p];
      if id in cards {
        var c := cards[id];
        c.bar := p;
        assert forall k | k in cards && k != id :: cards[k].bar == old(cards[k].bar) && cards[k].phase == old(cards[k].phase);
        assert View().cards == old(View()).cards[id := old(View()).cards[id].(bar := p)];
      } else {
        assert View().cards == old(View()).cards;
      }
    }

    /** `_on_task_status` (ui.py:483-522), as far as the bookkeeping goes. */
    method OnTaskStatus(id: int, st: string)
      requires Valid()
      modifies this, cards.Values
      ensures Valid()
      ensures View() == StatusStep(old(View()), id, st)
    {
      if st == RemovedText {
        cards := cards - {id};
        return;
      }
      if id in cards && IsDoneText(st) {
        var c := cards[id];
        c.bar := 100;
        if c.phase != InFinished {
          c.phase := InFinished;
        }
        lastProg := lastProg[id := 100];
        assert forall k | k in cards && k != id :: cards[k].bar == old(cards[k].bar) && cards[k].phase == old(cards[k].phase);
        assert View().cards == old(View()).cards[id := CardView(InFinished, 100)];
      }
    }

    /** `_delete_file` (ui.py:199-215): the file-system part is the `unlinked` input. */
    method DeleteFile(id: int, path: string, unlinked: bool)
      requires Valid()
      modifies this
      ensures Valid()
      ensures View() == DeleteStep(old(View()), id, path, unlinked)
    {
      if path == "" || !unlinked {
        return;
      }
      cards := cards - {id};
    }
  }
}
