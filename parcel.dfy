/**
 * An Android Parcel seen as a sequence of tagged values with a read
 * cursor. Writers append at the end; readers take the value under the
 * cursor and advance it. A reader whose value has another tag reports
 * None (the real Parcel is untyped and would misread the bytes).
 */
module Parcels {
  import opened JavaTypes

  datatype Item =
    | StringItem(s: string)
    | IntItem(i: int32)
    | StringArrayItem(a: seq<string>)
    | StringListItem(l: seq<string>)
    | ByteArrayItem(b: seq<octet>)

  /** The string at `pos`, if that item is one. */
  function StringAt(items: seq<Item>, pos: nat): (r: Option<string>)
    ensures r.Some? <==> pos < |items| && items[pos].StringItem?
  {
    if pos < |items| && items[pos].StringItem? then Some(items[pos].s) else None
  }

  function IntAt(items: seq<Item>, pos: nat): (r: Option<int32>)
    ensures r.Some? <==> pos < |items| && items[pos].IntItem?
  {
    if pos < |items| && items[pos].IntItem? then Some(items[pos].i) else None
  }

  function StringArrayAt(items: seq<Item>, pos: nat): (r: Option<seq<string>>)
    ensures r.Some? <==> pos < |items| && items[pos].StringArrayItem?
  {
    if pos < |items| && items[pos].StringArrayItem? then Some(items[pos].a) else None
  }

  function StringListAt(items: seq<Item>, pos: nat): (r: Option<seq<string>>)
    ensures r.Some? <==> pos < |items| && items[pos].StringListItem?
  {
    if pos < |items| && items[pos].StringListItem? then Some(items[pos].l) else None
  }

  function ByteArrayAt(items: seq<Item>, pos: nat): (r: Option<seq<octet>>)
    ensures r.Some? <==> pos < |items| && items[pos].ByteArrayItem?
  {
    if pos < |items| && items[pos].ByteArrayItem? then Some(items[pos].b) else None
  }

  /** The cursor after a read that yields `r` at `pos`: advanced by one on success. */
  function After<T>(r: Option<T>, pos: nat): nat {
    if r.Some? then pos + 1 else pos
  }

  class Parcel {
    var items: seq<Item>
    var pos: nat

    constructor ()
      ensures items == [] && pos == 0
    {
      items := [];
      pos := 0;
    }

    /** setDataPosition: moves the read cursor. */
    method SetDataPosition(p: nat)
      modifies this
      ensures items == old(items) && pos == p
    {
      pos := p;
    }

    method WriteString(s: string)
      modifies this
      ensures items == old(items) + [StringItem(s)] && pos == old(pos)
    {
      items := items + [StringItem(s)];
    }

    method WriteInt(i: int32)
      modifies this
      ensures items == old(items) + [IntItem(i)] && pos == old(pos)
    {
      items := items + [IntItem(i)];
    }

    /** writeStringArray: the array's contents at the time of the call. */
    method WriteStringArray(a: array<string>)
      modifies this
      ensures items == old(items) + [StringArrayItem(a[..])] && pos == old(pos)
    {
      items := items + [StringArrayItem(a[..])];
    }

    method WriteStringList(l: seq<string>)
      modifies this
      ensures items == old(items) + [StringListItem(l)] && pos == old(pos)
    {
      items := items + [StringListItem(l)];
    }

    method WriteByteArray(b: seq<octet>)
      modifies this
      ensures items == old(items) + [ByteArrayItem(b)] && pos == old(pos)
    {
      items := items + [ByteArrayItem(b)];
    }

    method ReadString() returns (r: Option<string>)
      modifies this
      ensures r == StringAt(items, old(pos)) && pos == After(r, old(pos)) && items == old(items)
    {
      r := StringAt(items, pos);
      pos := After(r, pos);
    }

    method ReadInt() returns (r: Option<int32>)
      modifies this
      ensures r == IntAt(items, old(pos)) && pos == After(r, old(pos)) && items == old(items)
    {
      r := IntAt(items, pos);
      pos := After(r, pos);
    }

    /** createStringArray: a new array holding the stored strings. */
    method CreateStringArray() returns (r: Option<array<string>>)
      modifies this
      ensures r.Some? <==> StringArrayAt(items, old(pos)).Some?
      ensures r.Some? ==> fresh(r.value) && r.value[..] == StringArrayAt(items, old(pos)).value
      ensures pos == After(r, old(pos)) && items == old(items)
    {
      var a := StringArrayAt(items, pos);
      if a.Some? {
        var v := a.value;
        var arr := new string[|v|](i requires 0 <= i < |v| => v[i]);
        r := Some(arr);
      } else {
        r := None;
      }
      pos := After(r, pos);
    }

    /** readStringList: the stored list, which the caller's list then holds. */
    method ReadStringList() returns (r: Option<seq<string>>)
      modifies this
      ensures r == StringListAt(items, old(pos)) && pos == After(r, old(pos)) && items == old(items)
    {
      r := StringListAt(items, pos);
      pos := After(r, pos);
    }

    method CreateByteArray() returns (r: Option<seq<octet>>)
      modifies this
      ensures r == ByteArrayAt(items, old(pos)) && pos == After(r, old(pos)) && items == old(items)
    {
      r := ByteArrayAt(items, pos);
      pos := After(r, pos);
    }
  }
}
