/** `TableModel`: the ordered collection of clips behind the clip table. It holds
    the list of clips (`_data`), replaced whole by `update_data` and reordered in
    place by `sort`, and answers the row/column/cell queries of the view. */
module Table {
  import opened Wrappers
  import opened PyStrings
  import opened Sequences
  import opened Sorting
  import opened Clips

  datatype SortOrder = AscendingOrder | DescendingOrder

  /** The item data role of a cell query; only the display role has data here. */
  datatype Role = DisplayRole | OtherRole

  /** Python's IndexError for a list index out of range. */
  datatype IndexError = IndexError

  /** The position `xs[i]` reads in a list of length `n`: a negative `i` counts
      from the end; None where Python raises IndexError. */
  function PyIndex(n: nat, i: int): (r: Option<nat>)
    ensures r.Some? <==> -(n as int) <= i < n
    ensures r.Some? ==> r.value < n && r.value as int == (if i < 0 then n + i else i)
  {
    if 0 <= i < n then Some(i) else if -(n as int) <= i < 0 then Some((n + i) as nat) else None
  }

  /** The sort key of column `k`: `getattr(x, list(x.get_attributes().keys())[k])`. */
  function SortKey(k: nat): Clip -> string
    requires k < |AttributeNames|
  {
    c => var name := Attributes(c)[k].0; GetAttr(c, name).value
  }

  /** Column `k`'s key is the field in that place of the order name, shot, episode, season. */
  lemma SortKeyIsField(k: nat, c: Clip)
    requires k < |AttributeNames|
    ensures SortKey(k)(c) == [c.name, c.shot, c.episode, c.season][k]
  {
  }

  /** The rows after `sort(k, order)`: the stable ascending sort by column `k`,
      reversed for descending order. */
  function SortedRows(rows: seq<Clip>, k: nat, order: SortOrder): seq<Clip>
    requires k < |AttributeNames|
  {
    var ascending := SortBy(rows, SortKey(k));
    if order == DescendingOrder then Reverse(ascending) else ascending
  }

  /** Sorting permutes the rows; ascending order is the stable ascending order by
      the column (the only one, `SortByUnique`), descending order is its reverse
      and so in descending order of the column. */
  lemma SortedRowsProperties(rows: seq<Clip>, k: nat, order: SortOrder)
    requires k < |AttributeNames|
    ensures multiset(SortedRows(rows, k, order)) == multiset(rows)
    ensures order == AscendingOrder ==>
              SortedBy(SortedRows(rows, k, order), SortKey(k)) && SameOrderPerKey(SortedRows(rows, k, order), rows, SortKey(k))
    ensures order == DescendingOrder ==>
              SortedDescendingBy(SortedRows(rows, k, order), SortKey(k))
              && SortedRows(rows, k, order) == Reverse(SortedRows(rows, k, AscendingOrder))
  {
    SortByProperties(rows, SortKey(k));
    ReverseOfSorted(SortBy(rows, SortKey(k)), SortKey(k));
  }

  /** Sorting parsed clips by season, episode or shot orders them by the number
      in that field, since the fields are zero-filled to one width. */
  lemma SortedFieldsAreNumeric(rows: seq<Clip>, k: nat)
    requires 1 <= k < |AttributeNames|
    requires forall i :: 0 <= i < |rows| ==> WellFormed(rows[i])
    ensures forall i :: 0 <= i < |SortedRows(rows, k, AscendingOrder)| ==> WellFormed(SortedRows(rows, k, AscendingOrder)[i])
    ensures forall i, j :: 0 <= i < j < |SortedRows(rows, k, AscendingOrder)| ==>
              var s := SortedRows(rows, k, AscendingOrder);
              WellFormed(s[i]) && WellFormed(s[j]) &&
              (k == 1 ==> DigitsValue(s[i].shot) <= DigitsValue(s[j].shot)) &&
              (k == 2 ==> DigitsValue(s[i].episode[1..]) <= DigitsValue(s[j].episode[1..])) &&
              (k == 3 ==> DigitsValue(s[i].season[1..]) <= DigitsValue(s[j].season[1..]))
  {
    var s := SortedRows(rows, k, AscendingOrder);
    SortedRowsProperties(rows, k, AscendingOrder);
    forall i | 0 <= i < |s|
      ensures WellFormed(s[i])
    {
      assert s[i] in multiset(rows);
    }
    forall i, j | 0 <= i < j < |s|
      ensures (k == 1 ==> DigitsValue(s[i].shot) <= DigitsValue(s[j].shot)) &&
              (k == 2 ==> DigitsValue(s[i].episode[1..]) <= DigitsValue(s[j].episode[1..])) &&
              (k == 3 ==> DigitsValue(s[i].season[1..]) <= DigitsValue(s[j].season[1..]))
    {
      assert !StrLt(SortKey(k)(s[j]), SortKey(k)(s[i]));
      FieldOrderIsNumeric(s[j], s[i]);
    }
  }

  class TableModel {
    /** `_data`: the clips, one per row, in display order. */
    var rows: seq<Clip>
    /** `_header_labels`: the column titles, kept for the view. */
    var headerLabels: seq<string>

    constructor (data: seq<Clip>, headerLabels: seq<string>)
      ensures rows == data && this.headerLabels == headerLabels
    {
      rows := data;
      this.headerLabels := headerLabels;
    }

    /** `rowCount()`: one row per clip. */
    function RowCount(): (n: nat)
      reads this
      ensures n == |rows|
    {
      |rows|
    }

    /** `columnCount()`: no columns while empty, else one per clip attribute. */
    function ColumnCount(): (n: nat)
      reads this
      ensures n == if rows == [] then 0 else 4
    {
      if RowCount() > 0 then |Attributes(rows[0])| else 0
    }

    /** `data(index, role)`: for the display role, the value of the `column`-th
        attribute of the `row`-th clip (Python indexing, so negative positions
        count from the end); no data for other roles. */
    function Data(row: int, column: int, role: Role): (r: Result<Option<string>, IndexError>)
      reads this
      ensures role != DisplayRole ==> r == Ok(None)
      ensures role == DisplayRole ==>
                (r.Ok? <==> PyIndex(|rows|, row).Some? && PyIndex(|AttributeNames|, column).Some?)
      ensures role == DisplayRole && 0 <= row < |rows| ==>
                && (column == 0 ==> r == Ok(Some(rows[row].name)))
                && (column == 1 ==> r == Ok(Some(rows[row].shot)))
                && (column == 2 ==> r == Ok(Some(rows[row].episode)))
                && (column == 3 ==> r == Ok(Some(rows[row].season)))
      ensures role == DisplayRole && r.Ok? ==>
                r.value == Some(SortKey(PyIndex(|AttributeNames|, column).value)(rows[PyIndex(|rows|, row).value]))
    {
      if role != DisplayRole then Ok(None)
      else match PyIndex(|rows|, row)
        case None => Err(IndexError)
        case Some(i) =>
          var clip := rows[i];
          var names := seq(|Attributes(clip)|, j requires 0 <= j < |Attributes(clip)| => Attributes(clip)[j].0);
          match PyIndex(|names|, column)
            case None => Err(IndexError)
            case Some(j) => Ok(Some(GetAttr(clip, names[j]).value))
    }

    /** `sort(column, order)`: stably sort the rows by the `column`-th attribute,
        then reverse them for descending order. A column outside the attributes
        raises IndexError while computing the keys, which happens only when
        there is a row, and leaves the rows as they were. */
    method Sort(column: int, order: SortOrder) returns (r: Result<(), IndexError>)
      modifies this
      ensures headerLabels == old(headerLabels)
      ensures r.Err? <==> old(rows) != [] && PyIndex(|AttributeNames|, column).None?
      ensures PyIndex(|AttributeNames|, column).None? ==> rows == old(rows)
      ensures PyIndex(|AttributeNames|, column).Some? ==>
                rows == SortedRows(old(rows), PyIndex(|AttributeNames|, column).value, order)
    {
      if rows == [] {
        return Ok(());
      }
      match PyIndex(|AttributeNames|, column)
      case None =>
        return Err(IndexError);
      case Some(k) =>
        rows := SortBy(rows, SortKey(k));
        if order == DescendingOrder {
          rows := Reverse(rows);
        }
        return Ok(());
    }

    /** `update_data(new_data)`: the clips become exactly `newData`. */
    method UpdateData(newData: seq<Clip>)
      modifies this
      ensures rows == newData && headerLabels == old(headerLabels)
      ensures RowCount() == |newData|
    {
      rows := newData;
    }
  }

  /** Every cell the view can show holds its column's sort key of its row: what
      `data` displays is what `sort` orders by. */
  lemma TableCounts(t: TableModel)
    ensures forall row, column :: 0 <= row < t.RowCount() && 0 <= column < t.ColumnCount() ==>
              t.Data(row, column, DisplayRole) == Ok(Some(SortKey(column)(t.rows[row])))
  {
  }
}
