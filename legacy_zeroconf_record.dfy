/**
 * The record of the older application: a key, a name, a type and the
 * array of URLs, refreshed from a JmDNS service event and carried
 * across a Parcel as four values.
 */
module LegacyRecords {
  import opened JavaTypes
  import opened Parcels
  import Records

  /** Every field of a legacy record, with `urls` as the contents of its array. */
  datatype LegacyValue = LegacyValue(key: string, name: string, typeName: string, urls: seq<string>)

  /** What a record holds after updateFromServiceEvent, whatever it held before. */
  function FromEvent(event: Records.InfoEvent): LegacyValue {
    LegacyValue(event.info.key, event.name, event.typeName, event.info.urls)
  }

  /** The four items writeToParcel appends. */
  function Encode(v: LegacyValue): (r: seq<Item>)
    ensures |r| == 4
  {
    [StringItem(v.key), StringItem(v.name), StringItem(v.typeName), StringArrayItem(v.urls)]
  }

  /** The kinds the reads of the Parcel constructor expect of the four items from `pos` on. */
  predicate HeaderAt(items: seq<Item>, pos: nat) {
    && pos + 4 <= |items|
    && items[pos].StringItem? && items[pos + 1].StringItem? && items[pos + 2].StringItem?
    && items[pos + 3].StringArrayItem?
  }

  /** What the Parcel constructor reads from `pos` on, and the cursor after it. */
  function Decode(items: seq<Item>, pos: nat): Option<(LegacyValue, nat)> {
    if HeaderAt(items, pos) then
      Some((LegacyValue(items[pos].s, items[pos + 1].s, items[pos + 2].s, items[pos + 3].a), pos + 4))
    else None
  }

  /**
   * Reading back what writeToParcel wrote, from wherever it stands in the
   * parcel, restores every field and leaves the cursor after the fourth item.
   */
  lemma DecodeEncode(v: LegacyValue, items: seq<Item>, pos: nat)
    requires pos + 4 <= |items| && items[pos..pos + 4] == Encode(v)
    ensures Decode(items, pos).Some? && Decode(items, pos).value.0 == v
    ensures Decode(items, pos).value.1 == pos + 4
  {
    assert items[pos] == items[pos..pos + 4][0];
    assert items[pos + 1] == items[pos..pos + 4][1];
    assert items[pos + 2] == items[pos..pos + 4][2];
    assert items[pos + 3] == items[pos..pos + 4][3];
  }

  /** Encoding what was decoded gives back the four items that were read. */
  lemma EncodeDecode(items: seq<Item>, pos: nat)
    requires Decode(items, pos).Some?
    ensures Decode(items, pos).value.1 == pos + 4 && pos + 4 <= |items|
    ensures Encode(Decode(items, pos).value.0) == items[pos..pos + 4]
  {
    var e := Encode(Decode(items, pos).value.0);
    assert e[0] == items[pos] && e[1] == items[pos + 1] && e[2] == items[pos + 2] && e[3] == items[pos + 3];
  }

  class LegacyRecord {
    var key: string
    var name: string
    var typeName: string
    var urls: array<string>

    function Value(): LegacyValue
      reads this, urls
    {
      LegacyValue(key, name, typeName, urls[..])
    }

    /** Empty strings and an empty `urls` array. */
    constructor ()
      ensures Value() == LegacyValue("", "", "", []) && fresh(urls)
    {
      key, name, typeName := "", "", "";
      urls := new string[0];
    }

    /** updateFromServiceEvent: the event's name and type, the info's key and a copy of its URLs. */
    method UpdateFromServiceEvent(event: Records.InfoEvent)
      modifies this
      ensures fresh(urls) && Value() == FromEvent(event)
    {
      var info := event.info;
      typeName := event.typeName;
      name := event.name;
      key := info.key;
      var u := info.urls;
      urls := new string[|u|](i requires 0 <= i < |u| => u[i]);
    }

    /** writeToParcel: key, name, type, then the URLs. */
    method WriteToParcel(dest: Parcel)
      modifies dest
      ensures dest.items == old(dest.items) + Encode(Value()) && dest.pos == old(dest.pos)
    {
      dest.WriteString(key);
      dest.WriteString(name);
      dest.WriteString(typeName);
      dest.WriteStringArray(urls);
    }

    /**
     * The CREATOR's createFromParcel, through the Parcel constructor: four
     * reads in writeToParcel's order; None where a read finds no value of
     * its kind, and the cursor then stops at that value.
     */
    static method CreateFromParcel(p: Parcel) returns (r: Option<LegacyRecord>)
      modifies p
      ensures p.items == old(p.items)
      ensures r.Some? <==> Decode(p.items, old(p.pos)).Some?
      ensures r.Some? ==> && fresh(r.value) && fresh(r.value.urls)
                          && r.value.Value() == Decode(p.items, old(p.pos)).value.0
                          && p.pos == Decode(p.items, old(p.pos)).value.1
    {
      var key := p.ReadString();
      if key.None? { return None; }
      var name := p.ReadString();
      if name.None? { return None; }
      var typeName := p.ReadString();
      if typeName.None? { return None; }
      var urls := p.CreateStringArray();
      if urls.None? { return None; }
      var rec := new LegacyRecord();
      rec.key, rec.name, rec.typeName, rec.urls := key.value, name.value, typeName.value, urls.value;
      r := Some(rec);
    }
  }

  /**
   * Writing a record into an empty parcel, rewinding it and creating a
   * record from it gives a new record equal in every field to the old one.
   */
  method ParcelRoundTrip(rec: LegacyRecord) returns (copy: Option<LegacyRecord>)
    ensures copy.Some? && fresh(copy.value) && copy.value.Value() == rec.Value()
  {
    var p := new Parcel();
    rec.WriteToParcel(p);
    p.SetDataPosition(0);
    assert p.items[0..4] == Encode(rec.Value());
    DecodeEncode(rec.Value(), p.items, 0);
    copy := LegacyRecord.CreateFromParcel(p);
  }
}
