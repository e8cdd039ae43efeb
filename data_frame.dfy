/**
 * The part of a pandas DataFrame that buildit relies on: a frame indexed
 * by artist with a single `plays` column, whose rows keep the order in
 * which their labels were first assigned.  `frame.loc[key] = [plays]`
 * overwrites the row of an existing key in place and appends a row for
 * a new one.
 */
module DataFrame {
  import opened Wrappers

  /** One row: its index key (an artist, or "Other") and its plays. */
  datatype Row = Row(artist: string, plays: nat)

  function Labels(rows: seq<Row>): seq<string> {
    seq(|rows|, i requires 0 <= i < |rows| => rows[i].artist)
  }

  predicate Distinct(ls: seq<string>) {
    forall i, j :: 0 <= i < j < |ls| ==> ls[i] != ls[j]
  }

  /** The position of the row labelled `key`, if there is one. */
  function IndexOf(rows: seq<Row>, key: string): (r: Option<nat>)
    ensures r.None? <==> key !in Labels(rows)
    ensures r.Some? ==> r.value < |rows| && rows[r.value].artist == key
    ensures r.Some? ==> forall i :: 0 <= i < r.value ==> rows[i].artist != key
  {
    if rows == [] then None
    else if rows[0].artist == key then assert Labels(rows)[0] == key; Some(0)
    else
      assert Labels(rows) == [rows[0].artist] + Labels(rows[1..]);
      match IndexOf(rows[1..], key)
      case None => None
      case Some(j) => Some(j + 1)
  }

  /** `frame.loc[key]`, or None where pandas would raise KeyError. */
  function Lookup(rows: seq<Row>, key: string): Option<nat> {
    match IndexOf(rows, key)
    case Some(j) => Some(rows[j].plays)
    case None => None
  }

  /** `frame.loc[key] = [plays]` on a frame whose rows are `rows`. */
  function Assign(rows: seq<Row>, key: string, plays: nat): seq<Row> {
    match IndexOf(rows, key)
    case Some(j) => rows[j := Row(key, plays)]
    case None => rows + [Row(key, plays)]
  }

  /**
   * An existing key keeps its position and only its plays change; a new
   * key is appended as the last row.
   */
  lemma AssignLabels(rows: seq<Row>, key: string, plays: nat)
    ensures key in Labels(rows) ==> Labels(Assign(rows, key, plays)) == Labels(rows)
    ensures key in Labels(rows) ==> |Assign(rows, key, plays)| == |rows|
    ensures key !in Labels(rows) ==> Assign(rows, key, plays) == rows + [Row(key, plays)]
    ensures key !in Labels(rows) ==> Labels(Assign(rows, key, plays)) == Labels(rows) + [key]
  {
    var r := Assign(rows, key, plays);
    if key in Labels(rows) {
      assert Labels(r) == Labels(rows);
    } else {
      assert Labels(r) == Labels(rows) + [key];
    }
  }

  /** Afterwards `key` maps to `plays` and every other key keeps its value. */
  lemma AssignLookup(rows: seq<Row>, key: string, plays: nat, other: string)
    ensures Lookup(Assign(rows, key, plays), other) == if other == key then Some(plays) else Lookup(rows, other)
  {
    var r := Assign(rows, key, plays);
    match IndexOf(rows, key)
    case Some(j) =>
      assert Labels(r) == Labels(rows);
      IndexOfSameLabels(r, rows, other);
    case None =>
      if other == key {
        assert IndexOf(r, key) == Some(|rows|) by {
          assert r[|rows|].artist == key;
          assert Labels(r) == Labels(rows) + [key];
          forall i | 0 <= i < |rows| ensures r[i].artist != key {
            assert Labels(rows)[i] == r[i].artist;
          }
        }
      } else {
        IndexOfAppend(rows, Row(key, plays), other);
      }
  }

  /** Assignment keeps the labels distinct. */
  lemma AssignKeepsDistinct(rows: seq<Row>, key: string, plays: nat)
    requires Distinct(Labels(rows))
    ensures Distinct(Labels(Assign(rows, key, plays)))
  {
    AssignLabels(rows, key, plays);
  }

  lemma IndexOfSameLabels(a: seq<Row>, b: seq<Row>, key: string)
    requires Labels(a) == Labels(b)
    ensures IndexOf(a, key) == IndexOf(b, key)
  {
    assert |a| == |Labels(a)| == |b|;
    if a != [] {
      assert a[0].artist == Labels(a)[0] == b[0].artist;
      assert Labels(a[1..]) == Labels(a)[1..] == Labels(b[1..]);
      IndexOfSameLabels(a[1..], b[1..], key);
    }
  }

  lemma IndexOfAppend(rows: seq<Row>, row: Row, key: string)
    requires key != row.artist
    ensures IndexOf(rows + [row], key) == IndexOf(rows, key)
  {
    if rows == [] {
      assert [] + [row] == [row];
    } else {
      assert (rows + [row])[1..] == rows[1..] + [row];
      IndexOfAppend(rows[1..], row, key);
    }
  }

  /**
   * The frame buildit fills in: the rows in index order.  Its labels are
   * distinct, as those of a pandas index grown only by `.loc` assignment are.
   */
  class Frame {
    var rows: seq<Row>

    ghost predicate Valid()
      reads this
    {
      Distinct(Labels(rows))
    }

    /** `pd.DataFrame(columns=['artist', 'plays']).set_index('artist')` */
    constructor ()
      ensures Valid() && rows == []
    {
      rows := [];
    }

    /** `self.loc[key] = [plays]` */
    method SetRow(key: string, plays: nat)
      requires Valid()
      modifies this
      ensures Valid()
      ensures rows == Assign(old(rows), key, plays)
    {
      AssignKeepsDistinct(rows, key, plays);
      rows := Assign(rows, key, plays);
    }
  }
}
