/** Row normalisation: every row the driver returns is copied into a new
    object, property by property, with each binary value replaced by its
    upper-case hex text and every other value passed through. */
module Rows {
  import opened Wrappers
  import opened Hex

  /** A column value as the driver hands it over. Only the binary case is
      inspected; the others are carried through untouched. */
  datatype Value =
    | Bin(bytes: seq<bv8>)    // a Buffer, as a RAW column is fetched
    | Text(text: string)
    | Number(n: int)
    | Timestamp(millis: int)  // a Date
    | Null

  /** One own property of a row object. */
  datatype Entry = Entry(key: string, value: Value)

  /** A row object, as `Object.entries(row)` lists it: its own properties in
      order. A JavaScript object never has two properties of the same name. */
  type Row = r: seq<Entry> | DistinctKeys(r) witness []

  /** `row[key]`: the value of the property with that name, if there is one. */
  function Lookup(row: seq<Entry>, key: string): Option<Value>
  {
    if row == [] then None
    else if row[0].key == key then Some(row[0].value)
    else Lookup(row[1..], key)
  }

  /** The property names of a row, in order (`Object.keys(row)`). */
  function Keys(row: seq<Entry>): seq<string>
  {
    seq(|row|, i requires 0 <= i < |row| => row[i].key)
  }

  /** No property name occurs twice: true of the entries of every JavaScript object. */
  predicate DistinctKeys(row: seq<Entry>) {
    forall i, j :: 0 <= i < j < |row| ==> row[i].key != row[j].key
  }

  /** A row holding no binary value, so it serialises to JSON text safely. */
  predicate BinaryFree(row: seq<Entry>) {
    forall i :: 0 <= i < |row| ==> !row[i].value.Bin?
  }

  /** `obj[key] = v` on a plain object: an existing property keeps its place
      and takes the new value; a new property is added last. */
  function Assign(obj: seq<Entry>, key: string, v: Value): (r: seq<Entry>)
    ensures Lookup(r, key) == Some(v)
    ensures forall k :: k != key ==> Lookup(r, k) == Lookup(obj, k)
    ensures key !in Keys(obj) ==> r == obj + [Entry(key, v)]
    ensures key in Keys(obj) ==> Keys(r) == Keys(obj)
  {
    if obj == [] then [Entry(key, v)]
    else if obj[0].key == key then
      assert Keys(obj)[0] == key;
      assert Keys([Entry(key, v)] + obj[1..]) == Keys(obj);
      [Entry(key, v)] + obj[1..]
    else
      var rest := Assign(obj[1..], key, v);
      assert ([obj[0]] + rest)[1..] == rest;
      assert Keys(obj) == [obj[0].key] + Keys(obj[1..]);
      assert Keys([obj[0]] + rest) == [obj[0].key] + Keys(rest);
      [obj[0]] + rest
  }

  /** Assignment keeps an object's property names distinct. */
  lemma AssignKeepsDistinct(obj: Row, key: string, v: Value)
    ensures DistinctKeys(Assign(obj, key, v))
  {
    var r := Assign(obj, key, v);
    if key !in Keys(obj) {
      forall i, j | 0 <= i < j < |r| ensures r[i].key != r[j].key {
        if j == |obj| {
          assert Keys(obj)[i] == r[i].key;
        }
      }
    } else {
      assert Keys(r) == Keys(obj);
      forall i, j | 0 <= i < j < |r| ensures r[i].key != r[j].key {
        assert Keys(r)[i] == Keys(obj)[i] && Keys(r)[j] == Keys(obj)[j];
      }
    }
  }

  /** The value a property takes in the processed row. */
  function NormaliseValue(v: Value): (w: Value)
    ensures !v.Bin? ==> w == v
    ensures v.Bin? ==> w.Text? && |w.text| == 2 * |v.bytes|
    ensures v.Bin? ==> forall i :: 0 <= i < |w.text| ==> IsUpperHexDigit(w.text[i])
    ensures v.Bin? ==> Decode(w.text) == Some(v.bytes)
    ensures !w.Bin?
  {
    match v
    case Bin(bytes) => Text(BufferToUpperHex(bytes))
    case _ => v
  }

  /** What `row[key]` reads in the processed row, given the input row. */
  function NormalisedLookup(row: Row, key: string): Option<Value>
  {
    match Lookup(row, key)
    case None => None
    case Some(v) => Some(NormaliseValue(v))
  }

  /** The processed copy of one row: the same properties in the same order,
      each value normalised. */
  function NormaliseRow(row: Row): (out: Row)
    ensures Keys(out) == Keys(row)
    ensures BinaryFree(out)
  {
    seq(|row|, i requires 0 <= i < |row| => Entry(row[i].key, NormaliseValue(row[i].value)))
  }

  /** `result.rows.map(...)`: one processed row per input row, in order. */
  function NormaliseRows(rows: seq<Row>): (out: seq<Row>)
    ensures |out| == |rows|
  {
    seq(|rows|, i requires 0 <= i < |rows| => NormaliseRow(rows[i]))
  }

  /** Reading any property of the processed row gives the normalised value of
      that property in the input row, and a property absent from the input is
      absent from the output. */
  lemma {:induction false} LookupNormalised(row: Row, key: string)
    ensures Lookup(NormaliseRow(row), key) == NormalisedLookup(row, key)
  {
    if row != [] {
      assert NormaliseRow(row)[1..] == NormaliseRow(row[1..]);
      LookupNormalised(row[1..], key);
    }
  }

  /** One processed row: no property added, dropped or moved; a non-binary
      value is copied unchanged to the same name; a binary value becomes its
      hex text; nothing binary is left. */
  lemma NormaliseRowContents(row: Row)
    ensures Keys(NormaliseRow(row)) == Keys(row)
    ensures BinaryFree(NormaliseRow(row))
    ensures forall key :: Lookup(row, key).None? ==> Lookup(NormaliseRow(row), key).None?
    ensures forall key :: Lookup(row, key).Some? && !Lookup(row, key).value.Bin? ==>
      Lookup(NormaliseRow(row), key) == Lookup(row, key)
    ensures forall key :: Lookup(row, key).Some? && Lookup(row, key).value.Bin? ==>
      Lookup(NormaliseRow(row), key) == Some(Text(BufferToUpperHex(Lookup(row, key).value.bytes)))
  {
    forall key
      ensures Lookup(NormaliseRow(row), key) == NormalisedLookup(row, key)
    {
      LookupNormalised(row, key);
    }
  }

  /** All rows: the count and the order are kept, and row i of the output is
      the processed copy of row i of the input. */
  lemma NormaliseRowsContents(rows: seq<Row>)
    ensures |NormaliseRows(rows)| == |rows|
    ensures forall i :: 0 <= i < |rows| ==> Keys(NormaliseRows(rows)[i]) == Keys(rows[i])
    ensures forall i :: 0 <= i < |rows| ==> BinaryFree(NormaliseRows(rows)[i])
    ensures forall i, key :: 0 <= i < |rows| ==>
      Lookup(NormaliseRows(rows)[i], key) == NormalisedLookup(rows[i], key)
  {
    forall i | 0 <= i < |rows|
      ensures Keys(NormaliseRows(rows)[i]) == Keys(rows[i])
      ensures BinaryFree(NormaliseRows(rows)[i])
      ensures forall key :: Lookup(NormaliseRows(rows)[i], key) == NormalisedLookup(rows[i], key)
    {
      NormaliseRowContents(rows[i]);
      forall key
        ensures Lookup(NormaliseRows(rows)[i], key) == NormalisedLookup(rows[i], key)
      {
        LookupNormalised(rows[i], key);
      }
    }
  }

  /** Normalising twice changes nothing more: the processed rows hold no buffer. */
  lemma NormaliseRowsIdempotent(rows: seq<Row>)
    ensures NormaliseRows(NormaliseRows(rows)) == NormaliseRows(rows)
  {
    forall i | 0 <= i < |rows|
      ensures NormaliseRow(NormaliseRows(rows)[i]) == NormaliseRows(rows)[i]
    {
      NormaliseRowContents(rows[i]);
    }
  }

  /** A worked case: a row `{ID: 1, DATA: <bytes AB CD>}` becomes `{ID: 1, DATA: "ABCD"}`. */
  lemma NormaliseExample()
    ensures NormaliseRows([[Entry("ID", Number(1)), Entry("DATA", Bin([0xAB, 0xCD]))]])
         == [[Entry("ID", Number(1)), Entry("DATA", Text("ABCD"))]]
  {
    var bytes: seq<bv8> := [0xAB, 0xCD];
    assert bytes[1..] == [0xCD] && bytes[1..][1..] == [];
    assert UpperDigit(10) == 'A' && UpperDigit(11) == 'B';
    assert UpperDigit(12) == 'C' && UpperDigit(13) == 'D';
    assert EncodeUpper(bytes[1..]) == "CD";
    assert EncodeUpper(bytes) == "ABCD";
    var row: Row := [Entry("ID", Number(1)), Entry("DATA", Bin(bytes))];
    assert NormaliseRow(row) == [Entry("ID", Number(1)), Entry("DATA", Text("ABCD"))];
  }

  /** The callback given to `rows.map`: a fresh object filled property by
      property in the order `Object.entries` lists them. */
  method ProcessRow(row: Row) returns (processedRow: Row)
    ensures processedRow == NormaliseRow(row)
  {
    processedRow := [];
    var i := 0;
    while i < |row|
      invariant 0 <= i <= |row|
      invariant processedRow == NormaliseRow(row[..i])
    {
      var Entry(key, value) := row[i];
      assert key !in Keys(processedRow) by {
        forall j | 0 <= j < i ensures Keys(processedRow)[j] != key {
          assert row[..i][j] == row[j];
        }
      }
      if value.Bin? {
        AssignKeepsDistinct(processedRow, key, Text(BufferToUpperHex(value.bytes)));
        processedRow := Assign(processedRow, key, Text(BufferToUpperHex(value.bytes)));
      } else {
        AssignKeepsDistinct(processedRow, key, value);
        processedRow := Assign(processedRow, key, value);
      }
      assert row[..i + 1] == row[..i] + [row[i]];
      i := i + 1;
    }
    assert row[..i] == row;
  }
}
