/**
 * The record the library passes between service and clients: its fields,
 * its property queries, its refresh from a JmDNS service event, and the
 * order in which it writes itself to a Parcel and reads itself back.
 */
module Records {
  import opened JavaTypes
  import opened Vectors
  import opened Parcels
  import Utf8

  /** What a JmDNS ServiceInfo answers, as a value. */
  datatype ServiceInfo = ServiceInfo(
    key: string, domain: string, protocol: string, application: string, name: string,
    subtype: string, server: string, port: int32, priority: int32, weight: int32,
    urls: seq<string>, properties: map<string, seq<octet>>)

  /** A JmDNS ServiceEvent: the event's own name and type, and its info. */
  datatype InfoEvent = InfoEvent(name: string, typeName: string, info: ServiceInfo)

  /**
   * The nine descriptive fields after the key, name and type (domain ..
   * weight): copied from the info and written and read in this order,
   * never consulted by the rest of the system.
   */
  datatype Details = Details(
    domain: string, protocol: string, application: string, instance: string,
    subtype: string, server: string, port: int32, priority: int32, weight: int32)

  /** Every field of a record, with `urls` as the contents of its array. */
  datatype RecordValue = RecordValue(
    serviceKey: string, clientKey: string, name: string, typeName: string, details: Details,
    urls: seq<string>, properties: map<string, seq<octet>>)

  /** The field values of a new record. */
  const Blank := RecordValue("", "", "", "", Details("", "", "", "", "", "", 0, 0, 0), [], map[])

  /** The descriptive fields an info carries. */
  function InfoDetails(info: ServiceInfo): Details {
    Details(info.domain, info.protocol, info.application, info.name, info.subtype, info.server,
            info.port, info.priority, info.weight)
  }

  /** A list that names every key of `props` once: what `new Vector(keySet())` yields. */
  ghost predicate Enumerates(names: seq<string>, props: map<string, seq<octet>>) {
    Distinct(names) && forall n :: n in names <==> n in props
  }

  /** The property values as writeToParcel writes them: one byte array per name, in the names' order. */
  function ValueItems(props: map<string, seq<octet>>, names: seq<string>): (r: seq<Item>)
    requires forall n :: n in names ==> n in props
    ensures |r| == |names| && forall i :: 0 <= i < |r| ==> r[i] == ByteArrayItem(props[names[i]])
  {
    if names == [] then [] else [ByteArrayItem(props[names[0]])] + ValueItems(props, names[1..])
  }

  /** The k-th of the first fifteen items writeToParcel writes, ending with the property names. */
  function HeaderItem(v: RecordValue, names: seq<string>, k: nat): Item
    requires k < 15
  {
    var d := v.details;
    if k == 0 then StringItem(v.serviceKey) else if k == 1 then StringItem(v.clientKey)
    else if k == 2 then StringItem(v.name) else if k == 3 then StringItem(v.typeName)
    else if k == 4 then StringItem(d.domain) else if k == 5 then StringItem(d.protocol)
    else if k == 6 then StringItem(d.application) else if k == 7 then StringItem(d.instance)
    else if k == 8 then StringItem(d.subtype) else if k == 9 then StringItem(d.server)
    else if k == 10 then IntItem(d.port) else if k == 11 then IntItem(d.priority)
    else if k == 12 then IntItem(d.weight) else if k == 13 then StringArrayItem(v.urls)
    else StringListItem(names)
  }

  /** The first fifteen items writeToParcel writes. */
  function HeaderItems(v: RecordValue, names: seq<string>): (r: seq<Item>)
    ensures |r| == 15
  {
    seq(15, k requires 0 <= k < 15 => HeaderItem(v, names, k))
  }

  /** The fifteen header items one by one. */
  lemma HeaderFields(v: RecordValue, names: seq<string>)
    ensures var h := HeaderItems(v, names); var d := v.details;
            && h[0] == StringItem(v.serviceKey) && h[1] == StringItem(v.clientKey)
            && h[2] == StringItem(v.name) && h[3] == StringItem(v.typeName)
            && h[4] == StringItem(d.domain) && h[5] == StringItem(d.protocol)
            && h[6] == StringItem(d.application) && h[7] == StringItem(d.instance)
            && h[8] == StringItem(d.subtype) && h[9] == StringItem(d.server)
            && h[10] == IntItem(d.port) && h[11] == IntItem(d.priority) && h[12] == IntItem(d.weight)
            && h[13] == StringArrayItem(v.urls) && h[14] == StringListItem(names)
  {
  }

  /** Everything writeToParcel appends for a record whose property names it listed as `names`. */
  function Encode(v: RecordValue, names: seq<string>): seq<Item>
    requires forall n :: n in names ==> n in v.properties
  {
    HeaderItems(v, names) + ValueItems(v.properties, names)
  }

  /** The kinds the reads of the Parcel constructor expect of the fifteen items from `pos` on. */
  predicate HeaderAt(items: seq<Item>, pos: nat) {
    && pos + 15 <= |items|
    && items[pos].StringItem? && items[pos + 1].StringItem? && items[pos + 2].StringItem?
    && items[pos + 3].StringItem? && items[pos + 4].StringItem? && items[pos + 5].StringItem?
    && items[pos + 6].StringItem? && items[pos + 7].StringItem? && items[pos + 8].StringItem?
    && items[pos + 9].StringItem?
    && items[pos + 10].IntItem? && items[pos + 11].IntItem? && items[pos + 12].IntItem?
    && items[pos + 13].StringArrayItem? && items[pos + 14].StringListItem?
  }

  /** The record the Parcel constructor fills from a header at `pos` and the property map read after it. */
  function RecordAt(items: seq<Item>, pos: nat, props: map<string, seq<octet>>): RecordValue
    requires HeaderAt(items, pos)
  {
    RecordValue(items[pos].s, items[pos + 1].s, items[pos + 2].s, items[pos + 3].s,
                Details(items[pos + 4].s, items[pos + 5].s, items[pos + 6].s, items[pos + 7].s,
                        items[pos + 8].s, items[pos + 9].s, items[pos + 10].i, items[pos + 11].i, items[pos + 12].i),
                items[pos + 13].a, props)
  }

  /**
   * The property loop of the Parcel constructor from `start`: each name of
   * the list, in order, takes the next item, which must be a byte array,
   * and a later duplicate name overwrites an earlier one (HashMap.put).
   */
  function ValuesAt(items: seq<Item>, start: nat, names: seq<string>): Option<map<string, seq<octet>>>
    decreases |names|
  {
    if names == [] then Some(map[])
    else
      var i := |names| - 1;
      match ValuesAt(items, start, names[..i])
      case None => None
      case Some(m) =>
        if start + i < |items| && items[start + i].ByteArrayItem? then Some(m[names[i] := items[start + i].b])
        else None
  }

  /**
   * What the Parcel constructor reads from `pos` on, and the cursor after it;
   * None when an item is missing or has another kind than the one the reader expects.
   */
  function Decode(items: seq<Item>, pos: nat): Option<(RecordValue, nat)> {
    if !HeaderAt(items, pos) then None
    else
      var names := items[pos + 14].l;
      match ValuesAt(items, pos + 15, names)
      case None => None
      case Some(m) => Some((RecordAt(items, pos, m), pos + 15 + |names|))
  }

  /** The `n` items from `start` on exist and are byte arrays. */
  predicate BytesFrom(items: seq<Item>, start: nat, n: nat) {
    && (n == 0 || start + n <= |items|)
    && forall i :: start <= i < start + n ==> items[i].ByteArrayItem?
  }

  /** The items from `start` on are the values of `names` in `props`, in the names' order. */
  predicate ValuesStand(items: seq<Item>, start: nat, props: map<string, seq<octet>>, names: seq<string>) {
    forall i :: 0 <= i < |names| ==> start + i < |items| && names[i] in props && items[start + i] == ByteArrayItem(props[names[i]])
  }

  /** One missing or mistyped item among them is enough to break BytesFrom. */
  lemma BytesFromBroken(items: seq<Item>, start: nat, n: nat, j: nat)
    requires start <= j < start + n && !(j < |items| && items[j].ByteArrayItem?)
    ensures !BytesFrom(items, start, n)
  {
  }

  lemma BytesFromAt(items: seq<Item>, start: nat, n: nat, j: nat)
    requires BytesFrom(items, start, n) && start <= j < start + n
    ensures j < |items| && items[j].ByteArrayItem?
  {
  }

  /** BytesFrom over one more item. */
  lemma BytesFromStep(items: seq<Item>, start: nat, n: nat)
    ensures BytesFrom(items, start, n + 1) <==>
              BytesFrom(items, start, n) && start + n < |items| && items[start + n].ByteArrayItem?
  {
    if BytesFrom(items, start, n + 1) {
      forall j | start <= j < start + n ensures j < |items| && items[j].ByteArrayItem? {
        BytesFromAt(items, start, n + 1, j);
      }
      BytesFromAt(items, start, n + 1, start + n);
    }
  }

  /** The property loop succeeds exactly when every name finds a byte array. */
  lemma {:induction false} ValuesAtSome(items: seq<Item>, start: nat, names: seq<string>)
    ensures ValuesAt(items, start, names).Some? <==> BytesFrom(items, start, |names|)
  {
    if names != [] {
      var i := |names| - 1;
      ValuesAtSome(items, start, names[..i]);
      assert |names[..i]| == i;
      BytesFromStep(items, start, i);
    }
  }

  /** The map the property loop builds holds exactly the listed names. */
  lemma {:induction false} ValuesAtKeys(items: seq<Item>, start: nat, names: seq<string>)
    requires ValuesAt(items, start, names).Some?
    ensures forall n :: n in ValuesAt(items, start, names).value <==> n in names
  {
    if names != [] {
      var i := |names| - 1;
      var ns := names[..i];
      ValuesAtKeys(items, start, ns);
      assert names == ns + [names[i]];
    }
  }

  /** With distinct names, the map the property loop builds pairs the i-th name with the i-th byte array. */
  lemma {:induction false} ValuesAtPositions(items: seq<Item>, start: nat, names: seq<string>)
    requires Distinct(names)
    requires ValuesAt(items, start, names).Some?
    ensures BytesFrom(items, start, |names|)
    ensures forall i :: 0 <= i < |names| ==>
              names[i] in ValuesAt(items, start, names).value
              && ValuesAt(items, start, names).value[names[i]] == items[start + i].b
  {
    ValuesAtSome(items, start, names);
    if names != [] {
      var i := |names| - 1;
      var ns := names[..i];
      assert Distinct(ns) by {
        forall j, k | 0 <= j < k < |ns| ensures ns[j] != ns[k] {
          assert ns[j] == names[j] && ns[k] == names[k];
        }
      }
      ValuesAtPositions(items, start, ns);
      var m' := ValuesAt(items, start, ns).value;
      var m := ValuesAt(items, start, names).value;
      assert m == m'[names[i] := items[start + i].b];
      forall j | 0 <= j < |names|
        ensures names[j] in m && m[names[j]] == items[start + j].b
      {
        if j < i {
          assert ns[j] == names[j];
          assert names[j] != names[i];
        }
      }
    }
  }

  /** Values written in the order of an enumeration of the map are read back as the map. */
  lemma ValuesAtEncoded(items: seq<Item>, start: nat, props: map<string, seq<octet>>, names: seq<string>)
    requires Enumerates(names, props)
    requires ValuesStand(items, start, props, names)
    ensures ValuesAt(items, start, names).Some? && ValuesAt(items, start, names).value == props
  {
    assert ValuesAt(items, start, names).Some? by {
      forall j | start <= j < start + |names| ensures j < |items| && items[j].ByteArrayItem? {
        var i := j - start;
        assert 0 <= i < |names| && names[i] == names[i];
        assert start + i == j;
      }
      ValuesAtSome(items, start, names);
    }
    var m := ValuesAt(items, start, names).value;
    assert forall n :: n in props ==> n in m && m[n] == props[n] by {
      ValuesAtPositions(items, start, names);
      forall n | n in props ensures n in m && m[n] == props[n] {
        var i :| 0 <= i < |names| && names[i] == n;
      }
    }
    assert m.Keys == props.Keys by {
      ValuesAtKeys(items, start, names);
    }
    assert m == props;
  }

  /** Where the header of `v` stands in a parcel, each of its items stands at its own place. */
  lemma HeaderStands(items: seq<Item>, pos: nat, v: RecordValue, names: seq<string>)
    requires pos + 15 <= |items| && items[pos..pos + 15] == HeaderItems(v, names)
    ensures var d := v.details;
            && items[pos] == StringItem(v.serviceKey) && items[pos + 1] == StringItem(v.clientKey)
            && items[pos + 2] == StringItem(v.name) && items[pos + 3] == StringItem(v.typeName)
            && items[pos + 4] == StringItem(d.domain) && items[pos + 5] == StringItem(d.protocol)
            && items[pos + 6] == StringItem(d.application) && items[pos + 7] == StringItem(d.instance)
            && items[pos + 8] == StringItem(d.subtype) && items[pos + 9] == StringItem(d.server)
            && items[pos + 10] == IntItem(d.port) && items[pos + 11] == IntItem(d.priority)
            && items[pos + 12] == IntItem(d.weight) && items[pos + 13] == StringArrayItem(v.urls)
            && items[pos + 14] == StringListItem(names)
  {
    HeaderFields(v, names);
  }

  /**
   * Decode where writeToParcel's header and values stand at `pos`, with
   * the record given by its fields: a record variable that appeared both
   * inside and outside the encoding would make the solver chase the
   * equation between them.
   */
  lemma DecodeFields(items: seq<Item>, pos: nat, serviceKey: string, clientKey: string, name: string,
                     typeName: string, d: Details, urls: seq<string>,
                     properties: map<string, seq<octet>>, names: seq<string>)
    requires Enumerates(names, properties)
    requires pos + 15 <= |items|
    requires && items[pos] == StringItem(serviceKey) && items[pos + 1] == StringItem(clientKey)
             && items[pos + 2] == StringItem(name) && items[pos + 3] == StringItem(typeName)
             && items[pos + 4] == StringItem(d.domain) && items[pos + 5] == StringItem(d.protocol)
             && items[pos + 6] == StringItem(d.application) && items[pos + 7] == StringItem(d.instance)
             && items[pos + 8] == StringItem(d.subtype) && items[pos + 9] == StringItem(d.server)
             && items[pos + 10] == IntItem(d.port) && items[pos + 11] == IntItem(d.priority)
             && items[pos + 12] == IntItem(d.weight) && items[pos + 13] == StringArrayItem(urls)
             && items[pos + 14] == StringListItem(names)
    requires ValuesStand(items, pos + 15, properties, names)
    ensures Decode(items, pos).Some? && Decode(items, pos).value.1 == pos + 15 + |names|
    ensures Decode(items, pos).value.0 == RecordValue(serviceKey, clientKey, name, typeName, d, urls, properties)
  {
    ValuesAtEncoded(items, pos + 15, properties, names);
  }

  /**
   * Reading back what writeToParcel wrote, from wherever it stands in the
   * parcel, restores every field and leaves the cursor right after it.
   */
  lemma DecodeEncode(v: RecordValue, names: seq<string>, items: seq<Item>, pos: nat)
    requires Enumerates(names, v.properties)
    requires pos + |Encode(v, names)| <= |items| && items[pos..pos + |Encode(v, names)|] == Encode(v, names)
    ensures Decode(items, pos).Some? && Decode(items, pos).value.0 == v
    ensures Decode(items, pos).value.1 == pos + |Encode(v, names)|
  {
    SliceSplit(items, pos, HeaderItems(v, names), ValueItems(v.properties, names));
    HeaderStands(items, pos, v, names);
    assert ValuesStand(items, pos + 15, v.properties, names) by {
      forall i | 0 <= i < |names|
        ensures pos + 15 + i < |items| && names[i] in v.properties && items[pos + 15 + i] == ByteArrayItem(v.properties[names[i]])
      {
        assert items[pos + 15 + i] == items[pos + 15..pos + 15 + |names|][i];
      }
    }
    DecodeFields(items, pos, v.serviceKey, v.clientKey, v.name, v.typeName, v.details, v.urls, v.properties, names);
  }

  /**
   * The reader pairs the i-th name of the list with the i-th byte array
   * after it: values written in the order of the written name list come
   * back under their own names.
   */
  lemma DecodePairsPositionally(items: seq<Item>, pos: nat)
    requires Decode(items, pos).Some?
    ensures var names := items[pos + 14].l;
            var props := Decode(items, pos).value.0.properties;
            && (forall n :: n in props <==> n in names)
            && (Distinct(names) ==> forall i :: 0 <= i < |names| ==>
                  pos + 15 + i < |items| && items[pos + 15 + i].ByteArrayItem?
                  && names[i] in props && props[names[i]] == items[pos + 15 + i].b)
  {
    var names := items[pos + 14].l;
    ValuesAtKeys(items, pos + 15, names);
    if Distinct(names) {
      ValuesAtPositions(items, pos + 15, names);
    }
  }

  /** getPropertyString on a value: the decoded text, or None (null). */
  function PropertyText(props: map<string, seq<octet>>, name: string): (r: Option<string>)
    ensures r.Some? <==> name in props && Utf8.WellFormed(props[name])
    ensures r.Some? ==> Utf8.Encode(r.value) == props[name]
  {
    if name in props then
      Utf8.DecodeAcceptsWellFormed(props[name]);
      var d := Utf8.Decode(props[name]);
      if d.Some? then Utf8.EncodeDecode(props[name]); d else d
    else None
  }

  class ZeroConfRecord {
    var serviceKey: string
    var clientKey: string
    var name: string
    var typeName: string
    var details: Details
    var urls: array<string>
    var properties: map<string, seq<octet>>

    function Value(): RecordValue
      reads this, urls
    {
      RecordValue(serviceKey, clientKey, name, typeName, details, urls[..], properties)
    }

    /** Empty strings, zero numbers, an empty `urls` array and no properties. */
    constructor ()
      ensures Value() == Blank && fresh(urls)
    {
      serviceKey, clientKey, name, typeName := "", "", "", "";
      details := Blank.details;
      urls := new string[0];
      properties := map[];
    }

    /** A record holding the given fields, as the Parcel constructor leaves it once every read succeeded. */
    constructor Of(serviceKey: string, clientKey: string, name: string, typeName: string,
                   details: Details, urls: array<string>, properties: map<string, seq<octet>>)
      ensures this.urls == urls
      ensures Value() == RecordValue(serviceKey, clientKey, name, typeName, details, urls[..], properties)
    {
      this.serviceKey, this.clientKey, this.name, this.typeName := serviceKey, clientKey, name, typeName;
      this.details := details;
      this.urls := urls;
      this.properties := properties;
    }

    /** getPropertyNames: a new list holding every property name once, in map order. */
    method GetPropertyNames() returns (names: seq<string>)
      ensures Enumerates(names, properties)
      ensures |names| == |properties|
    {
      names := [];
      var left := properties.Keys;
      while left != {}
        invariant left <= properties.Keys
        invariant Distinct(names)
        invariant forall n :: n in names <==> n in properties && n !in left
        decreases |left|
      {
        var n :| n in left;
        names := names + [n];
        left := left - {n};
      }
      DistinctCard(names);
      assert (set n | n in names) == properties.Keys;
    }

    /** getPropertyString: the decoded text of a well-formed UTF-8 value; None for an absent name or malformed bytes. */
    function PropertyString(propertyName: string): (r: Option<string>)
      reads this
      ensures r.Some? <==> propertyName in properties && Utf8.WellFormed(properties[propertyName])
      ensures r.Some? ==> Utf8.Encode(r.value) == properties[propertyName]
    {
      PropertyText(properties, propertyName)
    }

    /** getPropertyBytes: null for an absent name, otherwise a new array with the stored bytes. */
    method GetPropertyBytes(propertyName: string) returns (data: array?<octet>)
      ensures data == null <==> propertyName !in properties
      ensures data != null ==> fresh(data) && data[..] == properties[propertyName]
    {
      data := null;
      if propertyName in properties {
        var v := properties[propertyName];
        data := new octet[|v|](i requires 0 <= i < |v| => v[i]);
      }
    }

    /**
     * updateFromServiceEvent: every field but `clientKey` comes from the
     * event, `urls` is a new array, and the property map is cleared and
     * refilled with exactly the info's properties.
     */
    method UpdateFromServiceEvent(event: InfoEvent)
      modifies this
      ensures serviceKey == event.info.key && clientKey == old(clientKey)
      ensures name == event.name && typeName == event.typeName && details == InfoDetails(event.info)
      ensures fresh(urls) && urls[..] == event.info.urls
      ensures properties == event.info.properties
    {
      var info := event.info;
      var props := map[];
      var left := info.properties.Keys;
      while left != {}
        invariant left <= info.properties.Keys
        invariant forall n :: n in props <==> n in info.properties && n !in left
        invariant forall n :: n in props ==> props[n] == info.properties[n]
        decreases |left|
      {
        var n :| n in left;
        props := props[n := info.properties[n]];
        left := left - {n};
      }
      assert props == info.properties;
      var u := info.urls;
      var copy := new string[|u|](i requires 0 <= i < |u| => u[i]);
      serviceKey, name, typeName := info.key, event.name, event.typeName;
      details := InfoDetails(info);
      urls := copy;
      properties := props;
    }

    /**
     * writeToParcel: the fields in declaration order, `urls`, the list of
     * property names, then each name's value in the order of that list.
     */
    method WriteToParcel(dest: Parcel) returns (ghost names: seq<string>)
      modifies dest
      ensures Enumerates(names, properties)
      ensures dest.items == old(dest.items) + Encode(Value(), names) && dest.pos == old(dest.pos)
    {
      ghost var before := dest.items;
      dest.WriteString(serviceKey);
      dest.WriteString(clientKey);
      dest.WriteString(name);
      dest.WriteString(typeName);
      dest.WriteString(details.domain);
      dest.WriteString(details.protocol);
      dest.WriteString(details.application);
      dest.WriteString(details.instance);
      dest.WriteString(details.subtype);
      dest.WriteString(details.server);
      dest.WriteInt(details.port);
      dest.WriteInt(details.priority);
      dest.WriteInt(details.weight);
      dest.WriteStringArray(urls);
      var propertyNames := GetPropertyNames();
      names := propertyNames;
      dest.WriteStringList(propertyNames);
      HeaderWritten(before, Value(), names);
      WriteValues(dest, propertyNames);
      AppendAssoc(before, HeaderItems(Value(), names), ValueItems(properties, names));
    }

    /** The loop of writeToParcel: each listed name's value, in the order of the list. */
    method WriteValues(dest: Parcel, propertyNames: seq<string>)
      requires forall n :: n in propertyNames ==> n in properties
      modifies dest
      ensures dest.items == old(dest.items) + ValueItems(properties, propertyNames) && dest.pos == old(dest.pos)
    {
      var i := 0;
      while i < |propertyNames|
        invariant 0 <= i <= |propertyNames|
        invariant dest.items == old(dest.items) + ValueItems(properties, propertyNames[..i]) && dest.pos == old(dest.pos)
      {
        dest.WriteByteArray(properties[propertyNames[i]]);
        ValueItemsAppend(properties, propertyNames[..i], propertyNames[i]);
        assert propertyNames[..i + 1] == propertyNames[..i] + [propertyNames[i]];
        i := i + 1;
      }
      assert propertyNames[..i] == propertyNames;
    }

    /**
     * The Parcel constructor (CREATOR.createFromParcel): a new record
     * whose fields are read in the order writeToParcel writes them, each
     * property name of the read list taking the next byte array.
     */
    static method CreateFromParcel(p: Parcel) returns (r: Option<ZeroConfRecord>)
      modifies p
      ensures p.items == old(p.items)
      ensures r.Some? <==> HeaderAt(p.items, old(p.pos)) && ValuesAt(p.items, old(p.pos) + 15, p.items[old(p.pos) + 14].l).Some?
      ensures r.Some? ==> && fresh(r.value) && fresh(r.value.urls)
                          && r.value.Value() == RecordAt(p.items, old(p.pos), ValuesAt(p.items, old(p.pos) + 15, p.items[old(p.pos) + 14].l).value)
                          && p.pos == old(p.pos) + 15 + |p.items[old(p.pos) + 14].l|
    {
      ghost var items, pos := p.items, p.pos;
      var serviceKey := p.ReadString();
      if serviceKey.None? { return None; }
      assert p.items == items && p.pos == pos + 1 && items[pos + 0] == StringItem(serviceKey.value);
      var clientKey := p.ReadString();
      if clientKey.None? { return None; }
      assert p.items == items && p.pos == pos + 2 && items[pos + 1] == StringItem(clientKey.value);
      var name := p.ReadString();
      if name.None? { return None; }
      assert p.items == items && p.pos == pos + 3 && items[pos + 2] == StringItem(name.value);
      var typeName := p.ReadString();
      if typeName.None? { return None; }
      assert p.items == items && p.pos == pos + 4 && items[pos + 3] == StringItem(typeName.value);
      var domain := p.ReadString();
      if domain.None? { return None; }
      assert p.items == items && p.pos == pos + 5 && items[pos + 4] == StringItem(domain.value);
      var protocol := p.ReadString();
      if protocol.None? { return None; }
      assert p.items == items && p.pos == pos + 6 && items[pos + 5] == StringItem(protocol.value);
      var application := p.ReadString();
      if application.None? { return None; }
      assert p.items == items && p.pos == pos + 7 && items[pos + 6] == StringItem(application.value);
      var instance := p.ReadString();
      if instance.None? { return None; }
      assert p.items == items && p.pos == pos + 8 && items[pos + 7] == StringItem(instance.value);
      var subtype := p.ReadString();
      if subtype.None? { return None; }
      assert p.items == items && p.pos == pos + 9 && items[pos + 8] == StringItem(subtype.value);
      var server := p.ReadString();
      if server.None? { return None; }
      assert p.items == items && p.pos == pos + 10 && items[pos + 9] == StringItem(server.value);
      var port := p.ReadInt();
      if port.None? { return None; }
      assert p.items == items && p.pos == pos + 11 && items[pos + 10] == IntItem(port.value);
      var priority := p.ReadInt();
      if priority.None? { return None; }
      assert p.items == items && p.pos == pos + 12 && items[pos + 11] == IntItem(priority.value);
      var weight := p.ReadInt();
      if weight.None? { return None; }
      assert p.items == items && p.pos == pos + 13 && items[pos + 12] == IntItem(weight.value);
      var urls := p.CreateStringArray();
      if urls.None? { return None; }
      assert p.items == items && p.pos == pos + 14 && items[pos + 13] == StringArrayItem(urls.value[..]);
      var names := p.ReadStringList();
      if names.None? { return None; }
      assert p.items == items && p.pos == pos + 15 && items[pos + 14] == StringListItem(names.value);
      var properties := ReadValues(p, names.value);
      if properties.None? { return None; }
      var details := Details(domain.value, protocol.value, application.value, instance.value,
                             subtype.value, server.value, port.value, priority.value, weight.value);
      var rec := new ZeroConfRecord.Of(serviceKey.value, clientKey.value, name.value, typeName.value,
                                        details, urls.value, properties.value);
      assert HeaderAt(items, pos) && names.value == items[pos + 14].l;
      assert rec.Value() == RecordAt(items, pos, properties.value);
      r := Some(rec);
    }

    /** The loop of the Parcel constructor: each name of the list, in order, takes the next byte array. */
    static method ReadValues(p: Parcel, propertyNames: seq<string>) returns (r: Option<map<string, seq<octet>>>)
      modifies p
      ensures p.items == old(p.items)
      ensures r == ValuesAt(p.items, old(p.pos), propertyNames)
      ensures r.Some? ==> p.pos == old(p.pos) + |propertyNames|
    {
      var properties := map[];
      ghost var start := p.pos;
      var i := 0;
      while i < |propertyNames|
        invariant 0 <= i <= |propertyNames| && p.items == old(p.items) && p.pos == start + i
        invariant ValuesAt(p.items, start, propertyNames[..i]) == Some(properties)
      {
        var b := p.CreateByteArray();
        assert propertyNames[..i + 1][..i] == propertyNames[..i];
        if b.None? {
          BytesFromBroken(p.items, start, |propertyNames|, start + i);
          ValuesAtSome(p.items, start, propertyNames);
          return None;
        }
        properties := properties[propertyNames[i] := b.value];
        i := i + 1;
      }
      assert propertyNames[..i] == propertyNames;
      r := Some(properties);
    }
  }

  /** The header items appended one writer call at a time. */
  lemma HeaderWritten(before: seq<Item>, v: RecordValue, names: seq<string>)
    ensures var d := v.details;
            before + [StringItem(v.serviceKey)] + [StringItem(v.clientKey)] + [StringItem(v.name)]
            + [StringItem(v.typeName)] + [StringItem(d.domain)] + [StringItem(d.protocol)]
            + [StringItem(d.application)] + [StringItem(d.instance)] + [StringItem(d.subtype)]
            + [StringItem(d.server)] + [IntItem(d.port)] + [IntItem(d.priority)] + [IntItem(d.weight)]
            + [StringArrayItem(v.urls)] + [StringListItem(names)]
            == before + HeaderItems(v, names)
  {
  }

  lemma ValueItemsAppend(props: map<string, seq<octet>>, names: seq<string>, n: string)
    requires forall m :: m in names ==> m in props
    requires n in props
    ensures ValueItems(props, names + [n]) == ValueItems(props, names) + [ByteArrayItem(props[n])]
  {
  }

  /** A parcel holding exactly the encoding of `v` passes every read of the Parcel constructor and yields `v`. */
  lemma EncodedParcel(items: seq<Item>, v: RecordValue, names: seq<string>)
    requires Enumerates(names, v.properties) && items == Encode(v, names)
    ensures HeaderAt(items, 0) && ValuesAt(items, 15, items[14].l).Some?
    ensures RecordAt(items, 0, ValuesAt(items, 15, items[14].l).value) == v
  {
    assert items[0..|items|] == items;
    DecodeEncode(v, names, items, 0);
  }

  /** Writing a record into a new parcel and rewinding it leaves what the Parcel constructor reads back as the record. */
  method WriteAndRewind(rec: ZeroConfRecord) returns (p: Parcel)
    ensures fresh(p) && p.pos == 0
    ensures HeaderAt(p.items, 0) && ValuesAt(p.items, 15, p.items[14].l).Some?
    ensures RecordAt(p.items, 0, ValuesAt(p.items, 15, p.items[14].l).value) == rec.Value()
  {
    ghost var v := rec.Value();
    p := new Parcel();
    ghost var names := rec.WriteToParcel(p);
    p.SetDataPosition(0);
    assert rec.Value() == v && p.items == Encode(v, names);
    EncodedParcel(p.items, v, names);
  }

  /**
   * Writing a record into an empty parcel, rewinding it and creating a
   * record from it gives a new record equal in every field to the old one.
   */
  method ParcelRoundTrip(rec: ZeroConfRecord) returns (copy: Option<ZeroConfRecord>)
    ensures copy.Some? && fresh(copy.value) && copy.value.Value() == rec.Value()
  {
    var p := WriteAndRewind(rec);
    copy := ZeroConfRecord.CreateFromParcel(p);
  }
}
