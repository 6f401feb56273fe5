/** The task-shape key: a length-prefixed encoding that no two shapes share. */
module TaskShape {
  import opened Decimal

  datatype TaskShape = TaskShape(toolClasses: seq<string>, areas: seq<string>, reversibility: string)

  function Item(value: string): string {
    Text(|value|) + ":" + value + ","
  }

  function Encode(values: seq<string>): string {
    if values == [] then "" else Encode(values[..|values| - 1]) + Item(values[|values| - 1])
  }

  function Key(shape: TaskShape): string {
    Encode(shape.toolClasses) + "|" + Encode(shape.areas) + "|" + Encode([shape.reversibility])
  }

  /** The loop the code builds one field with. */
  method EncodeField(values: seq<string>) returns (encoded: string)
    ensures encoded == Encode(values)
  {
    encoded := "";
    for i := 0 to |values|
      invariant encoded == Encode(values[..i])
    {
      assert values[..i + 1][..i] == values[..i];
      ghost var before := encoded;
      encoded := encoded + Text(|values[i]|);
      encoded := encoded + ":";
      encoded := encoded + values[i];
      encoded := encoded + ",";
      assert encoded == before + Item(values[i]);
    }
    assert values[..|values|] == values;
  }

  method ComputeKey(shape: TaskShape) returns (key: string)
    ensures key == Key(shape)
  {
    var tools := EncodeField(shape.toolClasses);
    var areas := EncodeField(shape.areas);
    var last := EncodeField([shape.reversibility]);
    key := tools + "|" + areas + "|" + last;
  }

  // ----- the left inverse -----

  /** Length of the leading run of digits. */
  function DigitRun(s: string): (n: nat)
    ensures n <= |s| && forall i :: 0 <= i < n ==> IsDigitChar(s[i])
    ensures n < |s| ==> !IsDigitChar(s[n])
  {
    if s == "" || !IsDigitChar(s[0]) then 0 else 1 + DigitRun(s[1..])
  }

  datatype Split = Split(values: seq<string>, rest: string)

  /** Read items for as long as the text starts with a digit. */
  function Decode(s: string): (r: Split)
    ensures |r.rest| <= |s|
    decreases |s|
  {
    var n := DigitRun(s);
    if n == 0 then Split([], s)
    else
      var size := Value(ReadDigits(s[..n]));
      if |s| < n + size + 2 then Split([], s)
      else
        var tail := Decode(s[n + size + 2..]);
        Split([s[n + 1..n + 1 + size]] + tail.values, tail.rest)
  }

  function Unkey(key: string): TaskShape {
    var tools := Decode(key);
    var areas := Decode(if tools.rest == "" then "" else tools.rest[1..]);
    var last := Decode(if areas.rest == "" then "" else areas.rest[1..]);
    TaskShape(tools.values, areas.values, if last.values == [] then "" else last.values[0])
  }

  lemma {:induction false} DigitRunIs(digits: string, rest: string)
    requires forall i :: 0 <= i < |digits| ==> IsDigitChar(digits[i])
    requires rest != "" && !IsDigitChar(rest[0])
    ensures DigitRun(digits + rest) == |digits|
    decreases |digits|
  {
    if digits == "" {
      assert digits + rest == rest;
    } else {
      assert (digits + rest)[1..] == digits[1..] + rest;
      DigitRunIs(digits[1..], rest);
    }
  }

  lemma SliceItem(digits: string, value: string, rest: string)
    ensures var s := digits + ":" + value + "," + rest; var n := |digits|;
            && |s| >= n + |value| + 2
            && s[..n] == digits && s[n + 1..n + 1 + |value|] == value && s[n + |value| + 2..] == rest
            && s == digits + (":" + value + "," + rest)
  {
  }

  lemma {:induction false} DecodeUnfolds(s: string, n: nat, size: nat)
    requires DigitRun(s) == n > 0 && Value(ReadDigits(s[..n])) == size && |s| >= n + size + 2
    ensures var tail := Decode(s[n + size + 2..]); Decode(s) == Split([s[n + 1..n + 1 + size]] + tail.values, tail.rest)
  {
    hide DigitRun, Value, ReadDigits;
  }

  lemma DecodeOneItem(value: string, rest: string)
    ensures Decode(Item(value) + rest) == Split([value] + Decode(rest).values, Decode(rest).rest)
  {
    hide Text, Decode, DigitRun, Value;
    var digits := Text(|value|);
    TextReadsBack(|value|);
    SliceItem(digits, value, rest);
    DigitRunIs(digits, ":" + value + "," + rest);
    assert Item(value) + rest == digits + ":" + value + "," + rest;
    DecodeUnfolds(Item(value) + rest, |digits|, |value|);
  }

  lemma {:induction false} EncodeFromTheFront(values: seq<string>)
    requires values != []
    ensures Encode(values) == Item(values[0]) + Encode(values[1..])
    decreases |values|
  {
    hide Item;
    var front := values[..|values| - 1];
    if front == [] {
      assert Encode(front) == "" && Encode(values[1..]) == "";
    } else {
      EncodeFromTheFront(front);
      assert values[1..][..|values| - 2] == front[1..];
    }
  }

  /** Element boundaries are unambiguous, whatever characters the values hold. */
  lemma {:induction false} DecodeUndoesEncode(values: seq<string>, rest: string)
    requires rest == "" || !IsDigitChar(rest[0])
    ensures Decode(Encode(values) + rest) == Split(values, rest)
    decreases |values|
  {
    if values == [] {
      assert Encode(values) + rest == rest;
    } else {
      EncodeFromTheFront(values);
      assert Encode(values) + rest == Item(values[0]) + (Encode(values[1..]) + rest);
      DecodeOneItem(values[0], Encode(values[1..]) + rest);
      DecodeUndoesEncode(values[1..], rest);
      assert [values[0]] + values[1..] == values;
    }
  }

  lemma DropBar(s: string)
    ensures ("|" + s)[1..] == s && |"|" + s| > 0 && !IsDigitChar(("|" + s)[0])
  {
  }

  /** Every key can be read back. */
  lemma UnkeyUndoesKey(shape: TaskShape)
    ensures Unkey(Key(shape)) == shape
  {
    hide Encode, Decode;
    var tools, areas, last := Encode(shape.toolClasses), Encode(shape.areas), Encode([shape.reversibility]);
    var afterAreas := "|" + last;
    var afterTools := "|" + (areas + afterAreas);
    assert Key(shape) == tools + afterTools;
    DropBar(areas + afterAreas);
    DropBar(last);
    assert last + "" == last;
    hide IsDigitChar;
    DecodeUndoesEncode(shape.toolClasses, afterTools);
    DecodeUndoesEncode(shape.areas, afterAreas);
    DecodeUndoesEncode([shape.reversibility], "");
  }

  /** Two shapes with one key are one shape. */
  lemma KeyIsInjective(a: TaskShape, b: TaskShape)
    ensures Key(a) == Key(b) <==> a == b
  {
    UnkeyUndoesKey(a);
    UnkeyUndoesKey(b);
  }

  lemma ShortText(n: nat)
    requires n < 10
    ensures Text(n) == [DigitChar(n)]
  {
    assert Digits(n) == [n];
  }

  lemma OneItem(value: string)
    requires |value| < 10
    ensures Encode([value]) == [DigitChar(|value|)] + ":" + value + ","
  {
    ShortText(|value|);
    hide Text;
    assert [value][..0] == [] && Encode([]) == "";
  }

  /** One key, character by character. */
  lemma KeyIsWritten()
    ensures Key(TaskShape(["a,"], [], "b")) == "2:a,,||1:b,"
  {
    OneItem("a,");
    OneItem("b");
    assert Encode([]) == "";
    hide Encode;
  }
}
