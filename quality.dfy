/**
 * The quality list offered after fetching a video's metadata
 * (ui.py:384-386) and the height read back from the chosen entry
 * (ui.py:394-396).
 */
module Quality {
  import opened Options
  import opened Decimal
  import opened WorkerNaming

  /** An element of the fetched `heights` list as Python sees it; a `bool` passes `isinstance(h, int)`. */
  datatype HeightValue = PyInt(n: int) | PyBool(b: bool) | PyOther

  /** `int(h)` for the elements that are `int`s, `None` for the others. */
  function AsInt(v: HeightValue): (r: Option<int>)
    ensures v.PyOther? <==> r.None?
    ensures v.PyBool? ==> r == Some(if v.b then 1 else 0)
    ensures v.PyInt? ==> r == Some(v.n)
  {
    match v
    case PyInt(n) => Some(n)
    case PyBool(b) => Some(if b then 1 else 0)
    case PyOther => None
  }

  /** `[int(h) for h in heights if isinstance(h, int)]`. */
  function IntHeights(hs: seq<HeightValue>): (r: seq<int>)
    ensures |r| <= |hs|
    ensures forall x :: x in r <==> exists i | 0 <= i < |hs| :: AsInt(hs[i]) == Some(x)
    decreases |hs|
  {
    if hs == [] then []
    else
      var rest := IntHeights(hs[1..]);
      assert forall i | 1 <= i < |hs| :: hs[i] == hs[1..][i - 1];
      match AsInt(hs[0])
      case Some(n) => [n] + rest
      case None => rest
  }

  predicate StrictlyDescending(s: seq<int>) {
    forall i, j | 0 <= i < j < |s| :: s[i] > s[j]
  }

  /** Puts `x` into a strictly descending list, once. */
  function InsertDescending(x: int, s: seq<int>): (r: seq<int>)
    requires StrictlyDescending(s)
    ensures StrictlyDescending(r)
    ensures forall y :: y in r <==> y == x || y in s
    ensures r != [] && r[0] == if s != [] && s[0] > x then s[0] else x
    decreases |s|
  {
    if s == [] || x > s[0] then [x] + s
    else if x == s[0] then s
    else [s[0]] + InsertDescending(x, s[1..])
  }

  /** `sorted(set(xs), reverse=True)`. */
  function DescendingSet(xs: seq<int>): (r: seq<int>)
    ensures StrictlyDescending(r)
    ensures forall y :: y in r <==> y in xs
    decreases |xs|
  {
    if xs == [] then [] else InsertDescending(xs[0], DescendingSet(xs[1..]))
  }

  /** A strictly descending list is fixed by its elements, so `DescendingSet` is the only such list. */
  lemma {:induction false} DescendingUnique(a: seq<int>, b: seq<int>)
    requires StrictlyDescending(a) && StrictlyDescending(b)
    requires forall y :: y in a <==> y in b
    ensures a == b
    decreases |a|
  {
    assert a != [] ==> a[0] in a && a[0] in b;
    assert b != [] ==> b[0] in b && b[0] in a;
    if a != [] && b != [] {
      SameHead(a, b);
      SameTailElements(a, b);
      DescendingUnique(a[1..], b[1..]);
      assert a == [a[0]] + a[1..] && b == [b[0]] + b[1..];
    }
  }

  /** Two non-empty descending lists with the same elements start with their common maximum. */
  lemma SameHead(a: seq<int>, b: seq<int>)
    requires StrictlyDescending(a) && StrictlyDescending(b) && a != [] && b != []
    requires forall y :: y in a <==> y in b
    ensures a[0] == b[0]
  {
    assert a[0] in a && b[0] in b;
    var j :| 0 <= j < |b| && b[j] == a[0];
    var i :| 0 <= i < |a| && a[i] == b[0];
    assert b[0] >= b[j] && a[0] >= a[i];
  }

  /** Dropping the common head leaves the same elements on both sides. */
  lemma SameTailElements(a: seq<int>, b: seq<int>)
    requires StrictlyDescending(a) && StrictlyDescending(b) && a != [] && b != [] && a[0] == b[0]
    requires forall y :: y in a <==> y in b
    ensures StrictlyDescending(a[1..]) && StrictlyDescending(b[1..])
    ensures forall y :: y in a[1..] <==> y in b[1..]
  {
    forall y ensures y in a[1..] ==> y in b[1..] {
      if y in a[1..] {
        var i :| 0 <= i < |a[1..]| && a[1..][i] == y;
        assert a[i + 1] == y && y < a[0] && y in b;
      }
    }
    forall y ensures y in b[1..] ==> y in a[1..] {
      if y in b[1..] {
        var i :| 0 <= i < |b[1..]| && b[1..][i] == y;
        assert b[i + 1] == y && y < b[0] && y in a;
      }
    }
  }

  /** An entry of the quality box: "Авто (лучшее)" with no data, or a height. */
  datatype QualityItem = Auto | Height(h: int)

  /** The entries in the box after `_on_meta_done`. */
  function QualityItems(hs: seq<HeightValue>): seq<QualityItem> {
    Entries(DescendingSet(IntHeights(hs)))
  }

  /** The auto entry, then one entry per height of `d`, in order. */
  function Entries(d: seq<int>): seq<QualityItem> {
    [Auto] + seq(|d|, i requires 0 <= i < |d| => Height(d[i]))
  }

  lemma EntriesShape(d: seq<int>)
    ensures var r := Entries(d);
      && |r| == |d| + 1 && r[0] == Auto
      && forall i | 1 <= i < |r| :: r[i] == Height(d[i - 1])
  {
  }

  lemma EntriesMembers(d: seq<int>)
    ensures forall x :: Height(x) in Entries(d) <==> x in d
  {
    var r := Entries(d);
    EntriesShape(d);
    forall x ensures Height(x) in r <==> x in d {
      if Height(x) in r {
        var i :| 0 <= i < |r| && r[i] == Height(x);
        assert i > 0 && d[i - 1] == x;
      }
      if x in d {
        var i :| 0 <= i < |d| && d[i] == x;
        assert r[i + 1] == Height(x);
      }
    }
  }

  /** The text shown for an entry: the auto label, or the height followed by "p". */
  function Label(item: QualityItem): (r: string)
    ensures item.Height? ==> r == IntToString(item.h) + "p"
  {
    match item
    case Auto => "Авто (лучшее)"
    case Height(h) => IntToString(h) + "p"
  }

  /**
   * The box holds the auto entry first and then one entry per distinct
   * integer height, strictly descending; non-integers are dropped and the
   * booleans count as 0 and 1.
   */
  lemma QualityItemsShape(hs: seq<HeightValue>)
    ensures var r := QualityItems(hs);
      && r[0] == Auto
      && (forall i | 1 <= i < |r| :: r[i].Height?)
      && (forall i, j | 1 <= i < j < |r| :: r[i].h > r[j].h)
      && (forall x :: Height(x) in r <==> exists i | 0 <= i < |hs| :: AsInt(hs[i]) == Some(x))
      && r[1..] == seq(|r| - 1, i requires 0 <= i < |r| - 1 => Height(DescendingSet(IntHeights(hs))[i]))
  {
    var d := DescendingSet(IntHeights(hs));
    var r := Entries(d);
    EntriesShape(d);
    EntriesMembers(d);
    assert forall i, j | 1 <= i < j < |r| :: r[i].h == d[i - 1] && r[j].h == d[j - 1];
    assert r[1..] == seq(|r| - 1, i requires 0 <= i < |r| - 1 => Height(d[i]));
  }

  /** `_selected_height`: the entry's height, or `None` for the auto entry. */
  function SelectedHeight(item: QualityItem): (r: Option<int>)
    ensures r.None? <==> item.Auto?
    ensures item.Height? ==> r == Some(item.h)
  {
    match item
    case Auto => None
    case Height(h) => Some(h)
  }

  /**
   * Different entries carry different labels, and the height read back
   * from an entry picks the best overall format exactly for the auto entry
   * and for a height of 0 (a `False` in the list also gives this entry).
   */
  lemma SelectionToFormat(item: QualityItem, other: QualityItem)
    ensures item != other ==> Label(item) != Label(other)
    ensures FormatSelector(SelectedHeight(item)) == BestOverall <==> item == Auto || item == Height(0)
  {
    FormatSelectorCeiling(SelectedHeight(item));
    if item != other && item.Height? && other.Height? {
      if Label(item) == Label(other) {
        var a := IntToString(item.h);
        var b := IntToString(other.h);
        assert |a| == |b|;
        assert a == Label(item)[..|a|] && b == Label(other)[..|b|];
        IntToStringInjective(item.h, other.h);
      }
    } else if item != other && item.Height? {
      LabelsDiffer(item.h);
    } else if item != other && other.Height? {
      LabelsDiffer(other.h);
    }
  }

  lemma LabelsDiffer(h: int)
    ensures Label(Height(h)) != Label(Auto)
  {
    var s := IntToString(h);
    assert Label(Height(h))[0] == s[0];
    assert s[0] == '-' || IsDigit(s[0]) by {
      if h >= 0 {
        assert s == NatToString(h);
      }
    }
    assert Label(Auto)[0] == 'А';
  }
}
