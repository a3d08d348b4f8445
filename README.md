# better-zeroconf: a Dafny model

better-zeroconf is an Android library and application for DNS-SD/mDNS
(zeroconf) service discovery. A shared Android service runs JmDNS and
keeps a registry of the services it found, bucketed by service type. It
forwards every change to the client connections subscribed to that type
or to all types. A client library binds to that service. It reconciles
the records an application registers with the state of the binding, and
it fans notifications out to the application's listeners. A record value
object crosses process boundaries by way of an Android Parcel.

This project models the in-memory bookkeeping of those pieces and the
guards around discovery. It proves what each operation does to its
tables and what the tables keep consistent across operations. The
files are:

| file | module | what it models |
|---|---|---|
| java_types.dfy | JavaTypes | `Option`, Java's `byte` as an octet, Java's `int` |
| vectors.dfy | Vectors | `Vector.remove`; the Enumeration that skips elements while its Vector shrinks |
| parcel.dfy | Parcels | an Android Parcel as a sequence of tagged items with a read cursor |
| utf8.dfy | Utf8 | the UTF-8 decoder set to REPORT malformed input (RFC 3629, section 4) |
| zeroconf_record.dfy | Records | the library's `ZeroConfRecord`: properties, event update, parcel codec |
| legacy_zeroconf_record.dfy | LegacyRecords | the application's older `ZeroConfRecord` |
| broker.dfy | Broker | service events, the callback log, the notify loops and their fan-out |
| discovery.dfy | Discovery | wifi states, the raw-IP byte split, the poll loop's edge detection |
| zeroconf_service.dfy | ZeroConfService | the library's registry and broker (`ZeroConfService`) |
| legacy_zeroconf_service.dfy | LegacyService | the application's earlier registry and broker |
| counting_service.dfy | CountingService | the oldest service: subscription counters and discovery guards |
| zeroconf_client.dfy | Client | the library's `ZeroConfClient` |
| browser.dfy | Browser | the browser's key-to-record mirror of the service list |
| zeroconf_receiver.dfy | Receiver | the oldest in-activity registry, `ZeroConfReceiver` |

Two things are shared by every stateful model. First, each change is a
function on a value (`Tables`, `Registry`, `Mirror`). A class with the
source's fields then has methods whose postconditions say that the new
state is that function of the old one. Second, module lemmas prove that
the functions keep the invariants (`TablesValid`, `RegistryValid`,
`Mirrors`). They also prove what each operation means.

Other modelling choices:
- **Remote calls:** a remote call that may raise a `RemoteException`
  is an entry in a call log whose outcome is not known in advance.
- **Callbacks:** the notify loops skip a connection without callbacks,
  so it receives nothing. The exception is the `subscribeAll` replay,
  which has no null test and throws a `NullPointerException` instead.
- **Null dereferences:** a `NullPointerException` from a missing table
  entry is an error outcome, and the state is left as it was at the throw.
- **Object identity:** a `Srv` object's identity is a serial number,
  which is what `Vector.remove` compares.

Several behaviours are modelled as the code has them, though they may
look unintended:
- A connection subscribed both to a type and to all types is told twice
  about each change of that type.
- The all-types replay is newest first.
- Stopping discovery empties the buckets but not `allServices`.
- In the library service, `removeAllSrv` announces every entry of
  `allServices`, not only its own bucket's, to the bucket's subscribers.
- In the application's service, a re-announced type replaces its bucket
  while connections still hold the old one.
- In the receiver, a service reported twice and removed once stays on the
  list.
- In the client, `toBeUnregistered.remove(record)` passes a record to a
  set of keys, so it removes nothing. `Client.Registered` keeps the
  unregister queue unchanged for that reason.

## Model

| member | source | states |
|---|---|---|
| Vectors.IndexOf | library/src/prom/android/zeroconf/service/ZeroConfService.java:371 | the index `Vector.remove` uses is the first position holding the element |
| Vectors.RemoveFirst | library/src/prom/android/zeroconf/service/ZeroConfService.java:371 | `Vector.remove(Object)`: an absent element leaves the list unchanged |
| Vectors.RemoveFirstAt | library/src/prom/android/zeroconf/service/ZeroConfService.java:395 | removing a present element closes the gap at its first position |
| Vectors.RemoveFirstShape | library/src/prom/android/zeroconf/service/ZeroConfService.java:395 | after a removal the list is one shorter; earlier elements stay and later ones shift down by one |
| Vectors.RemoveFirstDistinct | library/src/prom/android/zeroconf/service/ZeroConfService.java:371 | removal from a list without repetitions keeps it so and drops exactly that element |
| Vectors.RemoveFirstAfter | library/src/prom/android/zeroconf/service/ZeroConfService.java:233-234 | removing an element that does not occur earlier removes it at its own place |
| Vectors.Without | library/src/prom/android/zeroconf/service/ZeroConfService.java:399-405 | the elements not in a set, in order: each kept one is absent from the set, and each absent one is kept |
| Vectors.RemoveFirstWithout | library/src/prom/android/zeroconf/service/ZeroConfService.java:399-405 | removing one more element from a filtered list is filtering by one more element |
| Vectors.EnumerationSurvivors | library/src/prom/android/zeroconf/service/ZeroConfService.java:561-568 | what a Vector holds after an enumeration that removes each element it visits: half of its elements |
| Vectors.SurvivorsAreOdd | library/src/prom/android/zeroconf/service/ZeroConfService.java:561-568 | the k-th survivor is the element at odd position 2k+1 |
| Vectors.SurvivorsSubset | library/src/prom/android/zeroconf/service/ZeroConfService.java:561-568 | every survivor was in the Vector |
| Vectors.SurvivorsDistinct | library/src/prom/android/zeroconf/service/ZeroConfService.java:561-568 | survivors of a Vector without repetitions have none |
| Vectors.EnumerationCursor | library/src/prom/android/zeroconf/service/ZeroConfService.java:561-568 | the Vector after k rounds of that loop, with its length |
| Vectors.EnumerationCursorStep | library/src/prom/android/zeroconf/service/ZeroConfService.java:562-566 | round k returns the element originally at 2k, and its removal gives the next round's Vector |
| Vectors.EnumerationCursorEnd | library/src/prom/android/zeroconf/service/ZeroConfService.java:562 | when `hasMoreElements` fails, exactly the odd-positioned elements are left |
| Vectors.DroppedStep | library/src/prom/android/zeroconf/service/ZeroConfService.java:565 | removing a listed element keeps the list without repetitions and adds exactly that element to the types dropped |
| Parcels.StringAt | library/src/prom/android/zeroconf/model/ZeroConfRecord.java:126 | `readString` at the cursor: the item's string when the item is one, otherwise none |
| Parcels.IntAt | library/src/prom/android/zeroconf/model/ZeroConfRecord.java:139 | `readInt` at the cursor |
| Parcels.StringArrayAt | library/src/prom/android/zeroconf/model/ZeroConfRecord.java:144 | `createStringArray` at the cursor |
| Parcels.StringListAt | library/src/prom/android/zeroconf/model/ZeroConfRecord.java:147 | `readStringList` at the cursor |
| Parcels.ByteArrayAt | library/src/prom/android/zeroconf/model/ZeroConfRecord.java:153 | `createByteArray` at the cursor |
| Parcels.Parcel.SetDataPosition | library/src/prom/android/zeroconf/model/ZeroConfRecord.java:125-155 | moves the read cursor and changes nothing else |
| Parcels.Parcel.WriteString | library/src/prom/android/zeroconf/model/ZeroConfRecord.java:159 | appends one string item; the cursor stays |
| Parcels.Parcel.WriteInt | library/src/prom/android/zeroconf/model/ZeroConfRecord.java:172 | appends one int item |
| Parcels.Parcel.WriteStringArray | library/src/prom/android/zeroconf/model/ZeroConfRecord.java:177 | appends the array's contents as one item |
| Parcels.Parcel.WriteStringList | library/src/prom/android/zeroconf/model/ZeroConfRecord.java:180 | appends the list as one item |
| Parcels.Parcel.WriteByteArray | library/src/prom/android/zeroconf/model/ZeroConfRecord.java:186 | appends the bytes as one item |
| Parcels.Parcel.ReadString | library/src/prom/android/zeroconf/model/ZeroConfRecord.java:126 | reads the string at the cursor and advances it; a mismatch yields none |
| Parcels.Parcel.ReadInt | library/src/prom/android/zeroconf/model/ZeroConfRecord.java:139 | reads the int at the cursor and advances it |
| Parcels.Parcel.CreateStringArray | library/src/prom/android/zeroconf/model/ZeroConfRecord.java:144 | a new array holding the stored strings |
| Parcels.Parcel.ReadStringList | library/src/prom/android/zeroconf/model/ZeroConfRecord.java:147 | the stored list, which the caller's list then holds |
| Parcels.Parcel.CreateByteArray | library/src/prom/android/zeroconf/model/ZeroConfRecord.java:153 | the stored bytes at the cursor |
| Utf8.DecodeOne | library/src/prom/android/zeroconf/model/ZeroConfRecord.java:59-67 | one character of the decoder: it consumes 1 to 4 bytes and yields a scalar value |
| Utf8.EncodeChar | library/src/prom/android/zeroconf/model/ZeroConfRecord.java:59-67 | the shortest encoding of a character, 1 to 4 bytes |
| Utf8.Encode | library/src/prom/android/zeroconf/model/ZeroConfRecord.java:59-67 | the encoding of a text, character by character |
| Utf8.DecodeOneEncodeChar | library/src/prom/android/zeroconf/model/ZeroConfRecord.java:59-67 | decoding a character's encoding gives it back and consumes exactly its bytes |
| Utf8.DecodeOneIsEncoding | library/src/prom/android/zeroconf/model/ZeroConfRecord.java:59-67 | what one decoding step accepts is exactly the encoding of the character it returns |
| Utf8.DecodeEncode | library/src/prom/android/zeroconf/model/ZeroConfRecord.java:59-68 | encoding a text and decoding it gives the text back |
| Utf8.EncodeDecode | library/src/prom/android/zeroconf/model/ZeroConfRecord.java:59-68 | whatever decodes is the encoding of what it decodes to |
| Utf8.DecodeAcceptsWellFormed | library/src/prom/android/zeroconf/model/ZeroConfRecord.java:59-71 | the decoder yields a text exactly for the well-formed sequences, and none for the others |
| Utf8.EncodeInjective | library/src/prom/android/zeroconf/model/ZeroConfRecord.java:59-68 | distinct texts have distinct encodings |
| Utf8.OverlongRefused | library/src/prom/android/zeroconf/model/ZeroConfRecord.java:62 | the overlong form C0 80 is malformed |
| Utf8.SurrogateRefused | library/src/prom/android/zeroconf/model/ZeroConfRecord.java:62 | an encoded surrogate, ED A0 80, is malformed |
| Utf8.BeyondRangeRefused | library/src/prom/android/zeroconf/model/ZeroConfRecord.java:62 | F4 90 80 80, above U+10FFFF, is malformed |
| Utf8.TruncatedRefused | library/src/prom/android/zeroconf/model/ZeroConfRecord.java:62 | a truncated three-byte sequence is malformed |
| Records.ValueItems | library/src/prom/android/zeroconf/model/ZeroConfRecord.java:182-187 | the byte-array items written for the listed names, one per name in list order |
| Records.HeaderItems | library/src/prom/android/zeroconf/model/ZeroConfRecord.java:159-180 | `writeToParcel` writes fifteen items before the values |
| Records.HeaderFields | library/src/prom/android/zeroconf/model/ZeroConfRecord.java:159-180 | the header's order: ten strings, the port, priority and weight, the URL array, then the property names |
| Records.ValuesAtSome | library/src/prom/android/zeroconf/model/ZeroConfRecord.java:150-154 | the constructor's property loop succeeds exactly when every name finds a byte array |
| Records.ValuesAtKeys | library/src/prom/android/zeroconf/model/ZeroConfRecord.java:149-154 | the map it builds holds exactly the listed names |
| Records.ValuesAtPositions | library/src/prom/android/zeroconf/model/ZeroConfRecord.java:150-154 | with distinct names, the i-th name is paired with the i-th byte array |
| Records.ValuesAtEncoded | library/src/prom/android/zeroconf/model/ZeroConfRecord.java:179-187 | values written in the order of an enumeration of the map are read back as the map |
| Records.DecodeEncode | library/src/prom/android/zeroconf/model/ZeroConfRecord.java:125-188 | reading back what `writeToParcel` wrote, from anywhere in a parcel, restores every field and leaves the cursor after it |
| Records.DecodePairsPositionally | library/src/prom/android/zeroconf/model/ZeroConfRecord.java:146-154 | the reader pairs the i-th name with the i-th byte array after the list |
| Records.PropertyText | library/src/prom/android/zeroconf/model/ZeroConfRecord.java:57-74 | none for an absent name or malformed bytes; otherwise the text whose encoding the value is |
| Records.ZeroConfRecord.constructor | library/src/prom/android/zeroconf/model/ZeroConfRecord.java:48-51 | empty strings, zero numbers, an empty URL array and no properties |
| Records.ZeroConfRecord.Of | library/src/prom/android/zeroconf/model/ZeroConfRecord.java:125-155 | a record holding the given fields, as the Parcel constructor leaves it |
| Records.ZeroConfRecord.GetPropertyNames | library/src/prom/android/zeroconf/model/ZeroConfRecord.java:53-55 | a new list holding every property name once |
| Records.ZeroConfRecord.PropertyString | library/src/prom/android/zeroconf/model/ZeroConfRecord.java:57-74 | `getPropertyString`: the decoded value of a present name, or none |
| Records.ZeroConfRecord.GetPropertyBytes | library/src/prom/android/zeroconf/model/ZeroConfRecord.java:76-82 | null for an absent name; otherwise a new array holding the stored bytes |
| Records.ZeroConfRecord.UpdateFromServiceEvent | library/src/prom/android/zeroconf/model/ZeroConfRecord.java:84-112 | every field but `clientKey` comes from the event; the URLs are a new array; the properties are exactly the info's |
| Records.ZeroConfRecord.WriteToParcel | library/src/prom/android/zeroconf/model/ZeroConfRecord.java:158-188 | appends exactly the record's encoding, for some listing of its property names |
| Records.ZeroConfRecord.WriteValues | library/src/prom/android/zeroconf/model/ZeroConfRecord.java:182-187 | the value loop appends one byte array per listed name, in list order |
| Records.ZeroConfRecord.CreateFromParcel | library/src/prom/android/zeroconf/model/ZeroConfRecord.java:125-155 | succeeds exactly when the parcel decodes at the cursor; the new record is the decoded value and the cursor is after it |
| Records.ZeroConfRecord.ReadValues | library/src/prom/android/zeroconf/model/ZeroConfRecord.java:150-154 | the constructor's loop: each listed name takes the next byte array |
| Records.EncodedParcel | library/src/prom/android/zeroconf/model/ZeroConfRecord.java:125-188 | a parcel holding exactly a record's encoding decodes to that record |
| Records.WriteAndRewind | library/src/prom/android/zeroconf/model/ZeroConfRecord.java:158-188 | a new parcel after writing and rewinding holds what decodes to the record |
| Records.ParcelRoundTrip | library/src/prom/android/zeroconf/model/ZeroConfRecord.java:125-194 | write, rewind and `createFromParcel` give a new record equal in every field |
| LegacyRecords.Encode | src/prom/android/zeroconf/model/ZeroConfRecord.java:46-51 | `writeToParcel` writes four items |
| LegacyRecords.DecodeEncode | src/prom/android/zeroconf/model/ZeroConfRecord.java:38-51 | reading back the four items restores every field and leaves the cursor after them |
| LegacyRecords.EncodeDecode | src/prom/android/zeroconf/model/ZeroConfRecord.java:38-51 | encoding what was decoded gives back the items read |
| LegacyRecords.LegacyRecord.constructor | src/prom/android/zeroconf/model/ZeroConfRecord.java:17-19 | empty strings and an empty URL array |
| LegacyRecords.LegacyRecord.UpdateFromServiceEvent | src/prom/android/zeroconf/model/ZeroConfRecord.java:21-30 | event's name and type, info's key, a new copy of the URLs |
| LegacyRecords.LegacyRecord.WriteToParcel | src/prom/android/zeroconf/model/ZeroConfRecord.java:46-51 | appends exactly the record's encoding |
| LegacyRecords.LegacyRecord.CreateFromParcel | src/prom/android/zeroconf/model/ZeroConfRecord.java:38-43 | succeeds exactly when the four reads find their kinds; the record is the decoded value |
| LegacyRecords.ParcelRoundTrip | src/prom/android/zeroconf/model/ZeroConfRecord.java:38-56 | the round trip gives a new record equal in every field |
| Broker.Updates | library/src/prom/android/zeroconf/service/ZeroConfService.java:504-514 | one `serviceUpdated` per entry to one connection, in order |
| Broker.RemoveKeepsNewestFirst | library/src/prom/android/zeroconf/service/ZeroConfService.java:270 | `allServices.remove` keeps the list newest first |
| Broker.RemoveKeepsOldestFirst | library/src/prom/android/zeroconf/service/ZeroConfService.java:395 | `typeServices.remove` keeps a bucket oldest first |
| Broker.Deliveries | library/src/prom/android/zeroconf/service/ZeroConfService.java:421-441 | a notify loop makes at most one call per subscriber |
| Broker.Delivery | library/src/prom/android/zeroconf/service/ZeroConfService.java:411-435 | a notify step for one connection is the loop over that connection alone |
| Broker.Replay | library/src/prom/android/zeroconf/service/ZeroConfService.java:361-365 | the replay to a subscriber: all entries when it has callbacks; nothing otherwise |
| Broker.DeliveriesOnce | library/src/prom/android/zeroconf/service/ZeroConfService.java:421-441 | a notify loop calls a connection once if it is a target with callbacks, never otherwise |
| Broker.FanOutCount | library/src/prom/android/zeroconf/service/ZeroConfService.java:382-393 | a change reaches a connection with callbacks once per list it is in: twice when it is both type and all-types subscribed |
| Broker.CallLog.Callback | library/src/prom/android/zeroconf/service/ZeroConfService.java:411-419 | one remote call is logged whatever its outcome |
| Broker.CallLog.Notify | library/src/prom/android/zeroconf/service/ZeroConfService.java:411-435 | `notifyUpdate`/`notifyRemove` for one connection: no call without callbacks |
| Broker.CallLog.NotifyEach | library/src/prom/android/zeroconf/service/ZeroConfService.java:421-441 | the loop over a subscriber list; an exception does not stop it |
| Broker.CallLog.FanOutEach | library/src/prom/android/zeroconf/service/ZeroConfService.java:382-393 | type subscribers first, then all-types subscribers |
| Broker.CallLog.RemoveAllEach | library/src/prom/android/zeroconf/service/ZeroConfService.java:399-405 | one removal fan-out per entry of the list, in order |
| Discovery.AddressBytes | library/src/prom/android/zeroconf/service/ZeroConfService.java:170-176 | the four bytes, read back as a little-endian unsigned value, are the raw address modulo 2^32 |
| Discovery.AddressBytesInjective | library/src/prom/android/zeroconf/service/ZeroConfService.java:170-176 | different raw addresses give different byte arrays |
| Discovery.EdgeActions | library/src/prom/android/zeroconf/service/ZeroConfService.java:118-131 | at most one action per poll |
| Discovery.EdgeActionsStep | library/src/prom/android/zeroconf/service/ZeroConfService.java:123-131 | a new poll acts exactly when its state differs from the last poll's; start if enabled, stop otherwise |
| Discovery.NoEdgeNoAction | library/src/prom/android/zeroconf/service/ZeroConfService.java:119-131 | the loop never acts exactly when every poll sees the starting state |
| Discovery.RepeatedPollNoAction | library/src/prom/android/zeroconf/service/ZeroConfService.java:124-131 | polling the same state again adds no action |
| Discovery.EdgeCalls | library/src/prom/android/zeroconf/service/ZeroConfService.java:123-131 | the calls of the poll loop: at most one per poll |
| Discovery.EdgeCallsStep | library/src/prom/android/zeroconf/service/ZeroConfService.java:123-131 | a new poll calls exactly when its state differs from the last; start with its answers if enabled, stop otherwise |
| Discovery.EdgeCallsActions | library/src/prom/android/zeroconf/service/ZeroConfService.java:118-131 | read as actions, the loop's calls are exactly its edge actions, so `NoEdgeNoAction` and `RepeatedPollNoAction` hold of the calls |
| Discovery.EdgeCallsStartOnEnabled | library/src/prom/android/zeroconf/service/ZeroConfService.java:124-126 | every start the loop makes uses the answers of a poll that saw wifi enabled |
| ZeroConfService.GetSrvByKey | library/src/prom/android/zeroconf/service/ZeroConfService.java:407-409 | null exactly for an unindexed key; otherwise the indexed entry, which is in the bucket under that key |
| ZeroConfService.TargetsOf | library/src/prom/android/zeroconf/service/ZeroConfService.java:411-441 | each subscriber as the notify loops see it: its serial and whether it has callbacks |
| ZeroConfService.WithSrv | library/src/prom/android/zeroconf/service/ZeroConfService.java:375-380 | `addSrv`: appended to the list, indexed under its key, other keys unchanged |
| ZeroConfService.WithoutSrv | library/src/prom/android/zeroconf/service/ZeroConfService.java:389-397 | `removeSrv`: first occurrence leaves the list, the key leaves the index |
| ZeroConfService.RemoveEachFilters | library/src/prom/android/zeroconf/service/ZeroConfService.java:399-405 | `removeAllSrv` keeps exactly the bucket's entries and keys not among `allServices` |
| ZeroConfService.RemoveAllEmpties | library/src/prom/android/zeroconf/service/ZeroConfService.java:399-405 | a bucket whose entries are all in `allServices` is emptied |
| ZeroConfService.Empty | library/src/prom/android/zeroconf/service/ZeroConfService.java:57-63 | the new service's tables are consistent |
| ZeroConfService.SrvTypeListener.constructor | library/src/prom/android/zeroconf/service/ZeroConfService.java:688 | nothing seen or posted yet |
| ZeroConfService.SrvTypeListener.ServiceTypeAdded | library/src/prom/android/zeroconf/service/ZeroConfService.java:692-707 | posts a type exactly when discovery runs and the type is new, then remembers it; each type is posted at most once |
| ZeroConfService.Service.constructor | library/src/prom/android/zeroconf/service/ZeroConfService.java:57-66 | empty tables, no discovery, no lock held |
| ZeroConfService.Service.OnBind | library/src/prom/android/zeroconf/service/ZeroConfService.java:109-112 | a new connection with the next serial, subscribed to nothing |
| ZeroConfService.Service.RegisterCallbacks | library/src/prom/android/zeroconf/service/ZeroConfService.java:498-502 | the connection's callbacks are set, possibly to null |
| ZeroConfService.Service.EnsureType | library/src/prom/android/zeroconf/service/ZeroConfService.java:444-451 | the existing bucket, kept as it is, or a new empty one filed under the name |
| ZeroConfService.Service.UpdateSrv | library/src/prom/android/zeroconf/service/ZeroConfService.java:382-387 | `serviceUpdated` to the type's subscribers, then to all-types subscribers |
| ZeroConfService.Service.AddSrv | library/src/prom/android/zeroconf/service/ZeroConfService.java:375-380 | the bucket gains the entry, then the update fan-out |
| ZeroConfService.Service.RemoveSrv | library/src/prom/android/zeroconf/service/ZeroConfService.java:389-397 | the removal fan-out, then the entry leaves the bucket |
| ZeroConfService.Service.RemoveAllSrv | library/src/prom/android/zeroconf/service/ZeroConfService.java:399-405 | `removeSrv` for every entry of the global `allServices` |
| ZeroConfService.Service.Subscribe | library/src/prom/android/zeroconf/service/ZeroConfService.java:357-367 | a new subscriber is appended and sent the bucket's entries, oldest first; a repeat does nothing |
| ZeroConfService.Service.Unsubscribe | library/src/prom/android/zeroconf/service/ZeroConfService.java:369-373 | the subscriber leaves the bucket; a non-subscriber changes nothing |
| ZeroConfService.Service.OnTypeAdded | library/src/prom/android/zeroconf/service/ZeroConfService.java:250-253 | type added: `ensureType`, and nothing else |
| ZeroConfService.Service.OnServiceAdded | library/src/prom/android/zeroconf/service/ZeroConfService.java:258-264 | a new entry joins its bucket (created if missing) and the front of `allServices`, with the update fan-out |
| ZeroConfService.Service.OnServiceRemoved | library/src/prom/android/zeroconf/service/ZeroConfService.java:265-271 | the indexed entry leaves its bucket and `allServices` after the fan-out; an unindexed key throws after `ensureType` |
| ZeroConfService.Service.HandleMessage | library/src/prom/android/zeroconf/service/ZeroConfService.java:247-276 | dispatch on the four messages; throws exactly on removal of an unindexed key; resolved changes nothing |
| ZeroConfService.Service.PrenotifySubscribeAll | library/src/prom/android/zeroconf/service/ZeroConfService.java:504-514 | `serviceUpdated` for every entry of `allServices`, newest first; throws exactly when there are entries and the connection has no callbacks, before any call |
| ZeroConfService.Service.SubscribeAll | library/src/prom/android/zeroconf/service/ZeroConfService.java:517-525 | first call flags, counts and appends the connection and replays `allServices`; a repeat does nothing; without callbacks the replay throws after those changes |
| ZeroConfService.Service.UnsubscribeAll | library/src/prom/android/zeroconf/service/ZeroConfService.java:528-535 | undoes `subscribeAll`; an unflagged connection changes nothing |
| ZeroConfService.Service.SubscribeType | library/src/prom/android/zeroconf/service/ZeroConfService.java:538-545 | `ensureType`; an unlisted type is listed and subscribed, with its replay |
| ZeroConfService.Service.UnsubscribeType | library/src/prom/android/zeroconf/service/ZeroConfService.java:548-555 | `ensureType`; a listed type is unlisted and left |
| ZeroConfService.Service.Finalize | library/src/prom/android/zeroconf/service/ZeroConfService.java:558-573 | finalize as written: the odd-positioned types stay listed and subscribed; then `unsubscribeAll` |
| ZeroConfService.Service.EnumerateUnsubscribing | library/src/prom/android/zeroconf/service/ZeroConfService.java:561-568 | the loop leaves exactly the enumeration survivors and leaves the buckets of the dropped types |
| ZeroConfService.Service.Detach | library/src/prom/android/zeroconf/service/ZeroConfService.java:558-573 | finalize as intended: every listed type is dropped; then `unsubscribeAll` |
| ZeroConfService.Service.StartDiscovery | library/src/prom/android/zeroconf/service/ZeroConfService.java:143-204 | no effect if running; otherwise runs exactly when wifi is enabled, info present and create succeeds; the lock is held exactly while running |
| ZeroConfService.Service.StopDiscovery | library/src/prom/android/zeroconf/service/ZeroConfService.java:206-235 | no effect if stopped; otherwise every bucket is emptied with its removal calls, `allServices` is kept and the lock released |
| ZeroConfService.Service.RemoveAllTypes | library/src/prom/android/zeroconf/service/ZeroConfService.java:217-222 | the loop over the type table: `removeAllSrv` on every bucket once, in some order, with those calls |
| ZeroConfService.Service.Run | library/src/prom/android/zeroconf/service/ZeroConfService.java:118-141 | the start and stop calls made are exactly `EdgeCalls` of the polls, one per change of state, then the final stop; discovery is stopped and the lock free at the end |
| ZeroConfService.BindKeeps | library/src/prom/android/zeroconf/service/ZeroConfService.java:109-112 | `onBind` keeps the tables consistent |
| ZeroConfService.WithCallbacksKeeps | library/src/prom/android/zeroconf/service/ZeroConfService.java:498-502 | `registerCallbacks` keeps the tables consistent |
| ZeroConfService.EnsuredTypeKeeps | library/src/prom/android/zeroconf/service/ZeroConfService.java:444-451 | `ensureType` keeps the tables consistent |
| ZeroConfService.AddedBucketValid | library/src/prom/android/zeroconf/service/ZeroConfService.java:375-377 | the bucket gaining the newest entry stays oldest first, indexed and inside `allServices` |
| ZeroConfService.AddedServiceKeeps | library/src/prom/android/zeroconf/service/ZeroConfService.java:258-264 | service added keeps the tables consistent |
| ZeroConfService.EnsureThenAdd | library/src/prom/android/zeroconf/service/ZeroConfService.java:259-263 | the handler's `ensureType` before `addSrv` changes nothing more |
| ZeroConfService.RemovedBucketValid | library/src/prom/android/zeroconf/service/ZeroConfService.java:389-397 | the bucket losing an entry stays ordered and indexed |
| ZeroConfService.RemovedServiceKeeps | library/src/prom/android/zeroconf/service/ZeroConfService.java:265-271 | service removed keeps the tables consistent |
| ZeroConfService.MessageKeeps | library/src/prom/android/zeroconf/service/ZeroConfService.java:247-276 | every message keeps the tables consistent |
| ZeroConfService.SubscribedAllKeeps | library/src/prom/android/zeroconf/service/ZeroConfService.java:517-525 | `subscribeAll` keeps the all-types list matching the flags and the counter |
| ZeroConfService.UnsubscribedAllKeeps | library/src/prom/android/zeroconf/service/ZeroConfService.java:528-535 | `unsubscribeAll` keeps that too |
| ZeroConfService.JoinBucketKeeps | library/src/prom/android/zeroconf/service/ZeroConfService.java:541-543 | joining a bucket is recorded on both sides |
| ZeroConfService.LeaveBucketKeeps | library/src/prom/android/zeroconf/service/ZeroConfService.java:551-553 | leaving a bucket is recorded on both sides |
| ZeroConfService.SubscribedTypeKeeps | library/src/prom/android/zeroconf/service/ZeroConfService.java:538-545 | `subscribeType` keeps the tables consistent |
| ZeroConfService.UnsubscribedTypeKeeps | library/src/prom/android/zeroconf/service/ZeroConfService.java:548-555 | `unsubscribeType` keeps the tables consistent |
| ZeroConfService.KeepTypesKeeps | library/src/prom/android/zeroconf/service/ZeroConfService.java:561-568 | keeping some listed types and leaving the others' buckets keeps the tables consistent |
| ZeroConfService.FinalizedKeeps | library/src/prom/android/zeroconf/service/ZeroConfService.java:558-573 | finalize as written keeps the tables consistent |
| ZeroConfService.DetachedKeeps | library/src/prom/android/zeroconf/service/ZeroConfService.java:558-573 | finalize as intended keeps the tables consistent |
| ZeroConfService.StopEmptiesBuckets | library/src/prom/android/zeroconf/service/ZeroConfService.java:216-222 | stopping empties each bucket, keeps its subscribers, and keeps `allServices` and the connections |
| ZeroConfService.StoppedKeeps | library/src/prom/android/zeroconf/service/ZeroConfService.java:206-235 | stopping keeps the tables consistent |
| ZeroConfService.TargetsOfDistinct | library/src/prom/android/zeroconf/service/ZeroConfService.java:411-441 | a subscriber list names each connection once; callback targets are its subscribers with callbacks |
| ZeroConfService.FanOutPerSubscription | library/src/prom/android/zeroconf/service/ZeroConfService.java:382-393 | a change reaches a connection once per subscription (type and all types); none without callbacks |
| ZeroConfService.AllTypeSubscriptionsCount | library/src/prom/android/zeroconf/service/ZeroConfService.java:519-534 | `allTypeSubscriptions` is the number of flagged connections |
| ZeroConfService.FinalizeKeepsSecondType | library/src/prom/android/zeroconf/service/ZeroConfService.java:561-568 | after finalize as written, a connection with two or more types still lists and subscribes to the second |
| ZeroConfService.DetachedLeavesNoSubscription | library/src/prom/android/zeroconf/service/ZeroConfService.java:558-573 | after finalize as intended a connection is in no bucket and no all-types list |
| LegacyService.NewBucket | src/prom/android/zeroconf/service/ZeroConfService.java:296-298 | `new SrvType(name)`: named, empty, with no subscribers |
| LegacyService.TargetsOf | src/prom/android/zeroconf/service/ZeroConfService.java:354-384 | each subscriber as the notify loops see it |
| LegacyService.Empty | src/prom/android/zeroconf/service/ZeroConfService.java:54-60 | the new service's tables are consistent |
| LegacyService.Service.constructor | src/prom/android/zeroconf/service/ZeroConfService.java:63-78 | empty tables; the one lock created, not held; no discovery |
| LegacyService.Service.OnBind | src/prom/android/zeroconf/service/ZeroConfService.java:95-98 | a new connection with the next serial |
| LegacyService.Service.RegisterCallbacks | src/prom/android/zeroconf/service/ZeroConfService.java:446-450 | the connection's callbacks are set |
| LegacyService.Service.EnsureType | src/prom/android/zeroconf/service/ZeroConfService.java:387-394 | the name's current bucket, or a new empty one filed under the name |
| LegacyService.Service.UpdateSrv | src/prom/android/zeroconf/service/ZeroConfService.java:325-330 | the update fan-out of a bucket |
| LegacyService.Service.AddSrv | src/prom/android/zeroconf/service/ZeroConfService.java:318-323 | the entry joins the bucket, then the update fan-out |
| LegacyService.Service.RemoveSrv | src/prom/android/zeroconf/service/ZeroConfService.java:332-340 | the removal fan-out, then the entry leaves the bucket |
| LegacyService.Service.RemoveAllSrv | src/prom/android/zeroconf/service/ZeroConfService.java:342-348 | `removeSrv` for every entry of `allServices` |
| LegacyService.Service.Subscribe | src/prom/android/zeroconf/service/ZeroConfService.java:300-310 | a new subscriber is appended and replayed to; a repeat does nothing |
| LegacyService.Service.Unsubscribe | src/prom/android/zeroconf/service/ZeroConfService.java:312-316 | the subscriber leaves the bucket |
| LegacyService.Service.OnTypeAdded | src/prom/android/zeroconf/service/ZeroConfService.java:192-195 | a new empty bucket under the name, replacing any |
| LegacyService.Service.OnServiceAdded | src/prom/android/zeroconf/service/ZeroConfService.java:201-207 | throws exactly when the type has no bucket; otherwise the entry joins it and the front of `allServices` |
| LegacyService.Service.OnServiceRemoved | src/prom/android/zeroconf/service/ZeroConfService.java:208-214 | throws exactly when no bucket or no indexed key; otherwise the entry leaves bucket and list |
| LegacyService.Service.HandleMessage | src/prom/android/zeroconf/service/ZeroConfService.java:191-219 | dispatch on the four messages, with those error cases |
| LegacyService.Service.PrenotifySubscribeAll | src/prom/android/zeroconf/service/ZeroConfService.java:452-462 | `serviceUpdated` for every entry, newest first; throws exactly when there are entries and no callbacks |
| LegacyService.Service.SubscribeAll | src/prom/android/zeroconf/service/ZeroConfService.java:465-473 | first call flags, counts, appends and replays; without callbacks the replay throws after those changes |
| LegacyService.Service.UnsubscribeAll | src/prom/android/zeroconf/service/ZeroConfService.java:476-483 | undoes `subscribeAll` |
| LegacyService.Service.SubscribeType | src/prom/android/zeroconf/service/ZeroConfService.java:486-493 | `ensureType`; an unlisted bucket is listed and subscribed |
| LegacyService.Service.UnsubscribeType | src/prom/android/zeroconf/service/ZeroConfService.java:496-503 | `ensureType`; a listed bucket is unlisted and left |
| LegacyService.Service.Finalize | src/prom/android/zeroconf/service/ZeroConfService.java:506-521 | finalize as written: every second listed bucket stays; then `unsubscribeAll` |
| LegacyService.Service.EnumerateUnsubscribing | src/prom/android/zeroconf/service/ZeroConfService.java:509-516 | the loop leaves exactly the enumeration survivors |
| LegacyService.Service.StartDiscovery | src/prom/android/zeroconf/service/ZeroConfService.java:100-150 | as in the library, with the lock created once beforehand |
| LegacyService.Service.StopDiscovery | src/prom/android/zeroconf/service/ZeroConfService.java:152-179 | empties the current bucket of every name; keeps replaced buckets and `allServices`; releases the lock |
| LegacyService.Service.RemoveAllTypes | src/prom/android/zeroconf/service/ZeroConfService.java:163-168 | the values loop: `removeAllSrv` on each current bucket once |
| LegacyService.Service.OnReceive | src/prom/android/zeroconf/service/ZeroConfService.java:401-410 | start when wifi is enabled, stop otherwise, on every broadcast; a stop of running discovery makes exactly stopDiscovery's removal calls, anything else makes none |
| LegacyService.BindKeeps | src/prom/android/zeroconf/service/ZeroConfService.java:95-98 | `onBind` keeps the tables consistent |
| LegacyService.WithCallbacksKeeps | src/prom/android/zeroconf/service/ZeroConfService.java:446-450 | `registerCallbacks` keeps the tables consistent |
| LegacyService.AddedTypeKeeps | src/prom/android/zeroconf/service/ZeroConfService.java:192-195 | type added keeps the tables consistent; nobody lists the new bucket |
| LegacyService.EnsuredTypeKeeps | src/prom/android/zeroconf/service/ZeroConfService.java:387-394 | `ensureType` keeps the tables consistent |
| LegacyService.AddedServiceKeeps | src/prom/android/zeroconf/service/ZeroConfService.java:201-207 | service added keeps the tables consistent |
| LegacyService.RemovedServiceKeeps | src/prom/android/zeroconf/service/ZeroConfService.java:208-214 | service removed keeps the tables consistent |
| LegacyService.MessageKeeps | src/prom/android/zeroconf/service/ZeroConfService.java:191-219 | every message keeps the tables consistent |
| LegacyService.SubscribedAllKeeps | src/prom/android/zeroconf/service/ZeroConfService.java:465-473 | `subscribeAll` keeps the tables consistent |
| LegacyService.UnsubscribedAllKeeps | src/prom/android/zeroconf/service/ZeroConfService.java:476-483 | `unsubscribeAll` keeps the tables consistent |
| LegacyService.JoinBucketKeeps | src/prom/android/zeroconf/service/ZeroConfService.java:489-491 | joining a bucket is recorded on both sides |
| LegacyService.LeaveBucketKeeps | src/prom/android/zeroconf/service/ZeroConfService.java:499-501 | leaving a bucket is recorded on both sides |
| LegacyService.SubscribedTypeKeeps | src/prom/android/zeroconf/service/ZeroConfService.java:486-493 | `subscribeType` keeps the tables consistent |
| LegacyService.UnsubscribedTypeKeeps | src/prom/android/zeroconf/service/ZeroConfService.java:496-503 | `unsubscribeType` keeps the tables consistent |
| LegacyService.KeepTypesKeeps | src/prom/android/zeroconf/service/ZeroConfService.java:509-516 | keeping some listed buckets and leaving the others keeps the tables consistent |
| LegacyService.FinalizedKeeps | src/prom/android/zeroconf/service/ZeroConfService.java:506-521 | finalize as written keeps the tables consistent |
| LegacyService.DetachedKeeps | src/prom/android/zeroconf/service/ZeroConfService.java:506-521 | finalize as intended keeps the tables consistent |
| LegacyService.StopEmptiesBuckets | src/prom/android/zeroconf/service/ZeroConfService.java:162-168 | current buckets emptied with subscribers kept; replaced buckets, `allServices` and connections kept |
| LegacyService.StoppedKeeps | src/prom/android/zeroconf/service/ZeroConfService.java:152-179 | stopping keeps the tables consistent |
| LegacyService.TypeAddedReplaces | src/prom/android/zeroconf/service/ZeroConfService.java:192-195 | a re-added type gets an empty bucket; the old one's entries and subscribers become unreachable by name while connections still list it |
| LegacyService.ReaddedTypeNotifiesAllTypesOnly | src/prom/android/zeroconf/service/ZeroConfService.java:192-207 | after a re-add, a new service of that type reaches only all-types subscribers |
| LegacyService.ResubscribeListsBoth | src/prom/android/zeroconf/service/ZeroConfService.java:486-493 | subscribing again after a re-add lists both old and new bucket |
| LegacyService.TargetsOfDistinct | src/prom/android/zeroconf/service/ZeroConfService.java:354-384 | a subscriber list names each connection once |
| LegacyService.FanOutPerSubscription | src/prom/android/zeroconf/service/ZeroConfService.java:325-336 | a change of a current bucket reaches a connection once per subscription |
| LegacyService.AllTypeSubscriptionsCount | src/prom/android/zeroconf/service/ZeroConfService.java:465-483 | `allTypeSubscriptions` counts the flagged connections |
| LegacyService.FinalizeKeepsSecondType | src/prom/android/zeroconf/service/ZeroConfService.java:509-516 | after finalize as written, the second listed bucket still has the connection |
| LegacyService.DetachedLeavesNoSubscription | src/prom/android/zeroconf/service/ZeroConfService.java:506-521 | after finalize as intended a connection is subscribed nowhere, current or replaced buckets |
| CountingService.Initial | src/prom/android/zeroconf/ZeroConfService.java:41-43 | as written: `allTypes` is null, no subscriptions, no connections |
| CountingService.Ready | src/prom/android/zeroconf/ZeroConfService.java:41-43 | as intended: an empty, consistent type table |
| CountingService.UncountedFrom | src/prom/android/zeroconf/ZeroConfService.java:259-266 | the type table with one subscription taken off each dropped type |
| CountingService.FlaggedCount | src/prom/android/zeroconf/ZeroConfService.java:224-237 | flagging or unflagging one connection changes the flagged count by one |
| CountingService.HoldersCount | src/prom/android/zeroconf/ZeroConfService.java:240-255 | listing or unlisting a type changes its holder count by one |
| CountingService.AllTypesIdempotent | src/prom/android/zeroconf/ZeroConfService.java:224-237 | `subscribeAll` and `unsubscribeAll` are idempotent and undo each other |
| CountingService.SubscribedAllKeeps | src/prom/android/zeroconf/ZeroConfService.java:224-229 | `subscribeAll` keeps the counter equal to the flagged connections |
| CountingService.UnsubscribedAllKeeps | src/prom/android/zeroconf/ZeroConfService.java:232-237 | `unsubscribeAll` keeps that too |
| CountingService.BoundKeeps | src/prom/android/zeroconf/ZeroConfService.java:166-169 | `onBind` keeps the counters consistent |
| CountingService.EnsuredTypeMeaning | src/prom/android/zeroconf/ZeroConfService.java:122-129 | null table throws; otherwise an existing type keeps its counter and a new one starts at 0 |
| CountingService.NewTypeUnheld | src/prom/android/zeroconf/ZeroConfService.java:122-129 | no connection lists a type the table lacks |
| CountingService.SubscribedTypeMeaning | src/prom/android/zeroconf/ZeroConfService.java:240-246 | `subscribeType` adds one to an unlisted type's counter and is idempotent |
| CountingService.UnsubscribedTypeMeaning | src/prom/android/zeroconf/ZeroConfService.java:249-255 | `unsubscribeType` takes one off a listed type's counter and is idempotent |
| CountingService.SubscribedTypeKeeps | src/prom/android/zeroconf/ZeroConfService.java:240-246 | each type's counter stays the number of connections listing it |
| CountingService.UnsubscribedTypeKeeps | src/prom/android/zeroconf/ZeroConfService.java:249-255 | that holds after `unsubscribeType` too |
| CountingService.KeptTypesKeeps | src/prom/android/zeroconf/ZeroConfService.java:259-266 | keeping some listed types and uncounting the rest keeps the counters consistent |
| CountingService.FinalizedKeeps | src/prom/android/zeroconf/ZeroConfService.java:258-274 | finalize as written keeps the counters consistent |
| CountingService.DetachedKeeps | src/prom/android/zeroconf/ZeroConfService.java:258-274 | finalize as intended keeps the counters consistent |
| CountingService.FinalizeClearsAllTypes | src/prom/android/zeroconf/ZeroConfService.java:268-271 | both finalizers clear the all-types flag, uncounted once |
| CountingService.FinalizeKeepsSecondType | src/prom/android/zeroconf/ZeroConfService.java:259-266 | after finalize as written the second type is still listed and counted |
| CountingService.DetachedLeavesNoSubscription | src/prom/android/zeroconf/ZeroConfService.java:258-274 | after finalize as intended the connection lists nothing and is counted nowhere |
| CountingService.UninitialisedTypesThrow | src/prom/android/zeroconf/ZeroConfService.java:41 | as written, after `onBind` both `subscribeType` and `unsubscribeType` throw on the null table |
| CountingService.ReadySubscribeCounts | src/prom/android/zeroconf/ZeroConfService.java:240-246 | as intended, the first `subscribeType` counts the type once and the counters stay consistent |
| CountingService.DiscoveryGuards | src/prom/android/zeroconf/ZeroConfService.java:46-120 | start runs exactly under its conditions and stop always stops, with the lock held exactly while running |
| CountingService.Service.constructor | src/prom/android/zeroconf/ZeroConfService.java:33-43 | the fields as Java leaves them: `allTypes` null, counter 0, not running |
| CountingService.Service.Initialised | src/prom/android/zeroconf/ZeroConfService.java:41 | as intended, with an empty type table |
| CountingService.Service.OnBind | src/prom/android/zeroconf/ZeroConfService.java:166-169 | a new connection stub subscribed to nothing |
| CountingService.Service.SubscribeAll | src/prom/android/zeroconf/ZeroConfService.java:224-229 | first call flags and counts; a repeat does nothing |
| CountingService.Service.UnsubscribeAll | src/prom/android/zeroconf/ZeroConfService.java:232-237 | undoes `subscribeAll` |
| CountingService.Service.EnsureType | src/prom/android/zeroconf/ZeroConfService.java:122-129 | null table throws; otherwise the type is in the table with its counter kept |
| CountingService.Service.Subscribe | src/prom/android/zeroconf/ZeroConfService.java:179-181 | `Type.subscribe` adds one to the counter |
| CountingService.Service.Unsubscribe | src/prom/android/zeroconf/ZeroConfService.java:183-185 | `Type.unsubscribe` takes one off |
| CountingService.Service.SubscribeType | src/prom/android/zeroconf/ZeroConfService.java:240-246 | null table throws with nothing changed; otherwise `SubscribedType` |
| CountingService.Service.UnsubscribeType | src/prom/android/zeroconf/ZeroConfService.java:249-255 | null table throws with nothing changed; otherwise `UnsubscribedType` |
| CountingService.Service.Finalize | src/prom/android/zeroconf/ZeroConfService.java:258-274 | finalize as written |
| CountingService.Service.EnumerateUnsubscribing | src/prom/android/zeroconf/ZeroConfService.java:259-266 | exactly the survivors stay listed; each dropped type is uncounted once |
| CountingService.Service.Detach | src/prom/android/zeroconf/ZeroConfService.java:258-274 | finalize as intended |
| CountingService.Service.DropEach | src/prom/android/zeroconf/ZeroConfService.java:259-266 | the corrected loop uncounts every listed type once and leaves nothing listed |
| CountingService.Service.StartDiscovery | src/prom/android/zeroconf/ZeroConfService.java:46-101 | no effect if running; runs exactly with wifi enabled, connection and DHCP info present and create succeeding; lock held while running |
| CountingService.Service.StopDiscovering | src/prom/android/zeroconf/ZeroConfService.java:103-120 | stops if running and releases the lock |
| CountingService.Service.OnReceive | src/prom/android/zeroconf/ZeroConfService.java:188-200 | start when wifi is enabled, stop otherwise |
| CountingService.Service.OnCreate | src/prom/android/zeroconf/ZeroConfService.java:131-150 | a new lock, not held, then a start attempt |
| CountingService.Service.OnDestroy | src/prom/android/zeroconf/ZeroConfService.java:152-163 | discovery stopped |
| Client.RegisterMeaning | library/src/prom/android/zeroconf/client/ZeroConfClient.java:116-146 | true exactly when the key is registered afterwards; a registered key keeps its first record |
| Client.RegisterDeferred | library/src/prom/android/zeroconf/client/ZeroConfClient.java:127-133 | unbound: the record is only queued and the answer is false |
| Client.RegisterIdempotent | library/src/prom/android/zeroconf/client/ZeroConfClient.java:116-146 | registering twice with the same outcome equals once |
| Client.UnregisterMeaning | library/src/prom/android/zeroconf/client/ZeroConfClient.java:153-187 | true exactly when the key was registered and no longer is; unbound queues the key and dequeues its registration |
| Client.RegisteredKeeps | library/src/prom/android/zeroconf/client/ZeroConfClient.java:130-138 | every record stays under its own key |
| Client.UnregisteredKeeps | library/src/prom/android/zeroconf/client/ZeroConfClient.java:169-177 | that holds after `unregisterService` too |
| Client.RegisterRequests | library/src/prom/android/zeroconf/client/ZeroConfClient.java:315-324 | one register call per queued record reached |
| Client.UnregisterRequests | library/src/prom/android/zeroconf/client/ZeroConfClient.java:326-334 | one unregister call per queued key reached, passing its registered record or null |
| Client.FirstOk | library/src/prom/android/zeroconf/client/ZeroConfClient.java:315-324 | the position of the first successful call, or the count when none succeeds |
| Client.LoopCalls | library/src/prom/android/zeroconf/client/ZeroConfClient.java:315-324 | the number of entries the replay as written handles, at most the number queued |
| Client.LoopThrowsIff | library/src/prom/android/zeroconf/client/ZeroConfClient.java:315-334 | the loop throws a ConcurrentModificationException exactly when a call other than the last succeeds |
| Client.RegisterReplayMoves | library/src/prom/android/zeroconf/client/ZeroConfClient.java:315-324 | the register replay moves exactly the succeeded records from the queue to the registered table |
| Client.UnregisterReplayKeepsRegistered | library/src/prom/android/zeroconf/client/ZeroConfClient.java:326-334 | as written, the unregister replay dequeues the succeeded keys and never touches the registered table |
| Client.FixedUnregisterReplayRemoves | library/src/prom/android/zeroconf/client/ZeroConfClient.java:326-334 | as intended, a succeeded key leaves both tables |
| Client.RegisterReplayKeeps | library/src/prom/android/zeroconf/client/ZeroConfClient.java:315-324 | the replay keeps every record under its own key |
| Client.DeferredRegisterCompletes | library/src/prom/android/zeroconf/client/ZeroConfClient.java:127-133 | a record queued while unbound is registered once its replayed call succeeds |
| Client.ReplayedUnregisterLeavesKey | library/src/prom/android/zeroconf/client/ZeroConfClient.java:326-334 | as written, after a successful replayed unregister the key is still registered, so registering again makes no call |
| Client.FixedReplayedUnregisterDropsKey | library/src/prom/android/zeroconf/client/ZeroConfClient.java:326-334 | as intended, the key is gone and registering again calls the service |
| Client.SecondPendingNeverTried | library/src/prom/android/zeroconf/client/ZeroConfClient.java:315-324 | two queued records, first call succeeds: the loop throws before trying the second |
| Client.PaddedCalls | library/src/prom/android/zeroconf/client/ZeroConfClient.java:315-334 | failures padding a run after its first success do not change how many entries are handled |
| Client.ConnectionReconciles | library/src/prom/android/zeroconf/client/ZeroConfClient.java:304-338 | with the intended replay, succeeded registrations and unregistrations leave their queues and move in or out of the registered table; failures stay queued |
| Client.ConnectionDrainsQueues | library/src/prom/android/zeroconf/client/ZeroConfClient.java:304-338 | with the intended replay and all calls succeeding, both queues end empty |
| Client.FanOutReachesAll | library/src/prom/android/zeroconf/client/ZeroConfClient.java:245-270 | every listener in order gets the note's callback exactly once; a disconnect reaches nobody |
| Client.ListenerRoundTrip | library/src/prom/android/zeroconf/client/ZeroConfClient.java:224-235 | registering a new listener and unregistering it restores the list |
| Client.ZeroConfClient.constructor | library/src/prom/android/zeroconf/client/ZeroConfClient.java:58-65 | empty tables, unbound, no listeners |
| Client.ZeroConfClient.Call | library/src/prom/android/zeroconf/client/ZeroConfClient.java:137 | one remote call logged with its unknown outcome |
| Client.ZeroConfClient.RegisterService | library/src/prom/android/zeroconf/client/ZeroConfClient.java:116-146 | returns `RegisterResult`; tables become `Registered`; a call only when `RegisterCalls` |
| Client.ZeroConfClient.UnregisterService | library/src/prom/android/zeroconf/client/ZeroConfClient.java:153-187 | returns `UnregisterResult`; tables become `Unregistered`; a call only when `UnregisterCalls` |
| Client.ZeroConfClient.IsServiceRegistered | library/src/prom/android/zeroconf/client/ZeroConfClient.java:189-192 | whether the key is registered |
| Client.ZeroConfClient.RegisterListener | library/src/prom/android/zeroconf/client/ZeroConfClient.java:224-226 | appends the listener |
| Client.ZeroConfClient.UnregisterListener | library/src/prom/android/zeroconf/client/ZeroConfClient.java:233-235 | drops its first occurrence |
| Client.ZeroConfClient.ServiceUpdatedCallback | library/src/prom/android/zeroconf/client/ZeroConfClient.java:285-288 | posts an update note |
| Client.ZeroConfClient.ServiceRemovedCallback | library/src/prom/android/zeroconf/client/ZeroConfClient.java:290-293 | posts a removal note |
| Client.ZeroConfClient.HandleMessage | library/src/prom/android/zeroconf/client/ZeroConfClient.java:245-270 | appends `FanOut` of the note to the delivered callbacks |
| Client.ZeroConfClient.OnServiceDisconnected | library/src/prom/android/zeroconf/client/ZeroConfClient.java:340-345 | unbound, a disconnect note posted, tables kept |
| Client.ZeroConfClient.DisconnectFromService | library/src/prom/android/zeroconf/client/ZeroConfClient.java:101-107 | unbound, tables kept |
| Client.ZeroConfClient.ReplayRegister | library/src/prom/android/zeroconf/client/ZeroConfClient.java:316-323 | one replayed register: on success the record moves |
| Client.ZeroConfClient.ReplayRegisters | library/src/prom/android/zeroconf/client/ZeroConfClient.java:315-324 | the replay as written, in some iteration order: throws exactly as `LoopThrows` says |
| Client.ZeroConfClient.RegisterUntilMoved | library/src/prom/android/zeroconf/client/ZeroConfClient.java:315-324 | the iteration up to its first success |
| Client.ZeroConfClient.ReplayUnregister | library/src/prom/android/zeroconf/client/ZeroConfClient.java:327-333 | one replayed unregister as written |
| Client.ZeroConfClient.ReplayUnregisters | library/src/prom/android/zeroconf/client/ZeroConfClient.java:326-334 | the unregister replay as written |
| Client.ZeroConfClient.UnregisterUntilMoved | library/src/prom/android/zeroconf/client/ZeroConfClient.java:326-334 | its iteration up to the first success |
| Client.ZeroConfClient.FixedReplayRegisters | library/src/prom/android/zeroconf/client/ZeroConfClient.java:315-324 | the register replay over a snapshot: every queued record is tried |
| Client.ZeroConfClient.FixedReplayUnregister | library/src/prom/android/zeroconf/client/ZeroConfClient.java:327-333 | one intended unregister: on success the key leaves both tables |
| Client.ZeroConfClient.FixedReplayUnregisters | library/src/prom/android/zeroconf/client/ZeroConfClient.java:326-334 | the unregister replay over a snapshot |
| Client.ZeroConfClient.Subscribe | library/src/prom/android/zeroconf/client/ZeroConfClient.java:306-313 | bound; `registerCallbacks`, then `subscribeAll` unless the first raised |
| Client.ZeroConfClient.OnServiceConnected | library/src/prom/android/zeroconf/client/ZeroConfClient.java:304-338 | as written: opening calls, register replay, then (unless thrown) the unregister replay and the connected note |
| Client.ZeroConfClient.OnServiceConnectedFixed | library/src/prom/android/zeroconf/client/ZeroConfClient.java:304-338 | as intended: both replays over snapshots; the connected note is always posted |
| Browser.Insert | browser/src/prom/android/zeroconf/browser/MainActivity.java:127 | `ArrayAdapter.insert`: the list is one longer and holds the element at the position |
| Browser.ShownInList | browser/src/prom/android/zeroconf/browser/MainActivity.java:122-146 | every record of the table is in the list |
| Browser.StatusCounts | browser/src/prom/android/zeroconf/browser/MainActivity.java:103-146 | the status count grows by one exactly when an update brings an unseen key, and shrinks by one exactly when a removal names a known key |
| Browser.ShownDistinct | browser/src/prom/android/zeroconf/browser/MainActivity.java:122-146 | distinct keys mean distinct list entries |
| Browser.UpdateKnownInPlace | browser/src/prom/android/zeroconf/browser/MainActivity.java:122-128 | a known key's record is replaced at its own position; length and other entries kept |
| Browser.InsertThenRemove | browser/src/prom/android/zeroconf/browser/MainActivity.java:126-128 | insert at the old one's position, then remove the old one, overwrites it |
| Browser.UpdateUnseenAppends | browser/src/prom/android/zeroconf/browser/MainActivity.java:129-133 | an unseen key lengthens the list by one with the record last, keeps every earlier entry and every other key |
| Browser.UpdateDropsOld | browser/src/prom/android/zeroconf/browser/MainActivity.java:122-128 | after an update by a new object the old record is no longer shown |
| Browser.UpdatedMirrors | browser/src/prom/android/zeroconf/browser/MainActivity.java:121-135 | `serviceUpdated` keeps the table and the list in step |
| Browser.RemovedMirrors | browser/src/prom/android/zeroconf/browser/MainActivity.java:138-146 | `serviceRemoved` keeps them in step |
| Browser.DropMirrors | browser/src/prom/android/zeroconf/browser/MainActivity.java:141-144 | dropping a listed record and its key together keeps table and list in step |
| Browser.RemoveMeaning | browser/src/prom/android/zeroconf/browser/MainActivity.java:138-146 | a known key loses its entry and exactly one list entry, the stored record; an unknown key changes nothing |
| Browser.MainActivity.constructor | browser/src/prom/android/zeroconf/browser/MainActivity.java:33-34 | empty table, empty list |
| Browser.MainActivity.UpdateStatus | browser/src/prom/android/zeroconf/browser/MainActivity.java:103-106 | the status shows the table's size |
| Browser.MainActivity.ServiceUpdated | browser/src/prom/android/zeroconf/browser/MainActivity.java:121-135 | the state becomes `Updated`; the status shows the old count, plus one for an unseen key |
| Browser.MainActivity.ServiceRemoved | browser/src/prom/android/zeroconf/browser/MainActivity.java:138-146 | the state becomes `Removed`; the status shows the old count, less one for a known key |
| Receiver.AddSrv | src/prom/android/zeroconf/ZeroConfReceiver.java:215-217 | files the entry under its name, replacing any; other names unchanged |
| Receiver.RemoveSrv | src/prom/android/zeroconf/ZeroConfReceiver.java:219-221 | drops whatever is filed under the entry's name; other names unchanged |
| Receiver.GetSrvByName | src/prom/android/zeroconf/ZeroConfReceiver.java:223-225 | null exactly for an unknown name |
| Receiver.GetType | src/prom/android/zeroconf/ZeroConfReceiver.java:86 | null exactly for a type never added |
| Receiver.Empty | src/prom/android/zeroconf/ZeroConfReceiver.java:44-46 | the new receiver's tables are consistent |
| Receiver.Handle | src/prom/android/zeroconf/ZeroConfReceiver.java:74-99 | throws exactly for a missing bucket (added, removed) or a missing name (removed); resolved changes nothing |
| Receiver.Notifications | src/prom/android/zeroconf/ZeroConfReceiver.java:100 | `notifyDataSetChanged` exactly once after a handled service message, never after a type message |
| Receiver.TypeAddedReplaces | src/prom/android/zeroconf/ZeroConfReceiver.java:76-79 | an empty bucket replaces any; the old bucket's entries stay listed but unindexed |
| Receiver.ServiceAddedMeaning | src/prom/android/zeroconf/ZeroConfReceiver.java:85-90 | succeeds exactly when the type has a bucket; a new, unlisted entry is put first and filed by name |
| Receiver.ServiceRemovedMeaning | src/prom/android/zeroconf/ZeroConfReceiver.java:91-96 | succeeds exactly when bucket and name exist; that entry leaves bucket and list, which is one shorter |
| Receiver.TypeAddedKeeps | src/prom/android/zeroconf/ZeroConfReceiver.java:76-79 | type added keeps the registry consistent |
| Receiver.ServiceAddedKeeps | src/prom/android/zeroconf/ZeroConfReceiver.java:85-90 | service added keeps it consistent |
| Receiver.ServiceRemovedKeeps | src/prom/android/zeroconf/ZeroConfReceiver.java:91-96 | service removed keeps it consistent |
| Receiver.HandleKeeps | src/prom/android/zeroconf/ZeroConfReceiver.java:74-101 | every handled message keeps it consistent |
| Receiver.HandleAllKeeps | src/prom/android/zeroconf/ZeroConfReceiver.java:74-101 | any run of messages that does not throw ends consistent |
| Receiver.ReAddedLeavesStaleEntry | src/prom/android/zeroconf/ZeroConfReceiver.java:85-96 | added twice, removed once: the first entry stays listed, and the bucket is empty |
| Receiver.ReAddedTypeOrphansEntries | src/prom/android/zeroconf/ZeroConfReceiver.java:76-96 | after a type is re-added, removing its listed service throws |
| Receiver.ItemText | src/prom/android/zeroconf/ZeroConfReceiver.java:351 | name, newline, type, newline |
| Receiver.LockCycle | src/prom/android/zeroconf/ZeroConfReceiver.java:57-70 | acquire leaves a lock held and release none; each is idempotent, and acquiring a held lock keeps it |
| Receiver.TypeHeardKeeps | src/prom/android/zeroconf/ZeroConfReceiver.java:294-308 | each type is posted at most once and the posted types are the seen ones |
| Receiver.FirstOccurrencesOnce | src/prom/android/zeroconf/ZeroConfReceiver.java:294-308 | the first occurrences hold each type once, and every type that occurs |
| Receiver.HeardAllPostsFirstOccurrences | src/prom/android/zeroconf/ZeroConfReceiver.java:290-308 | a new listener posts exactly each type's first occurrence, in order |
| Receiver.SrvTypeListener.constructor | src/prom/android/zeroconf/ZeroConfReceiver.java:290 | nothing seen, posted or listened to |
| Receiver.SrvTypeListener.ServiceTypeAdded | src/prom/android/zeroconf/ZeroConfReceiver.java:294-308 | becomes `TypeHeard`; a new type also gets a service listener |
| Receiver.ZeroConfReceiver.constructor | src/prom/android/zeroconf/ZeroConfReceiver.java:50-55 | empty tables, no lock, no notifications |
| Receiver.ZeroConfReceiver.AcquireMulticastLock | src/prom/android/zeroconf/ZeroConfReceiver.java:57-63 | the lock becomes `Acquired` |
| Receiver.ZeroConfReceiver.ReleaseMulticastLock | src/prom/android/zeroconf/ZeroConfReceiver.java:65-70 | the lock becomes `Released` |
| Receiver.ZeroConfReceiver.HandleMessage | src/prom/android/zeroconf/ZeroConfReceiver.java:74-102 | the registry follows `Handle`; a throw leaves it unchanged; notifications follow `Notifications` |
| Receiver.ZeroConfReceiver.GetTypeCount | src/prom/android/zeroconf/ZeroConfReceiver.java:157-159 | the number of types |
| Receiver.ZeroConfReceiver.GetServiceCount | src/prom/android/zeroconf/ZeroConfReceiver.java:161-163 | the number of listed services |
| Receiver.ZeroConfReceiver.GetItem | src/prom/android/zeroconf/ZeroConfReceiver.java:330-332 | the entry at a position in range; none (an exception) otherwise |
| Receiver.ZeroConfReceiver.GetItemId | src/prom/android/zeroconf/ZeroConfReceiver.java:335-337 | the position itself |
| Receiver.ZeroConfReceiver.IsEmpty | src/prom/android/zeroconf/ZeroConfReceiver.java:367-369 | true exactly when no service is listed |
| Receiver.ZeroConfReceiver.GetViewText | src/prom/android/zeroconf/ZeroConfReceiver.java:345-354 | the item text of the entry at a position in range |

## Left out

- JmDNS itself, sockets, the Android Handler queue, and threads are not modelled. A message posted to a Handler is handled as a direct step, and nothing runs concurrently.
- `Thread.sleep`, `interrupt` and `join` are left out. With them go the thread started by the library service's `onCreate` and joined by `onDestroy`. The poll loop `run` is modelled on a given sequence of polls, after which shutdown is requested.
- ZeroConfService.Service.Run: `run` reads the wifi state when it polls, and `startDiscovery` reads it again before starting. The model takes both reads from the poll's single `WifiEnv.wifiState`. So it cannot represent wifi being enabled at the poll and disabled at the second read, where `startDiscovery` would return early after creating the lock.
- Wifi and DHCP state, connection info, and whether `JmDNS.create` succeeds are parameters (`WifiEnv`). `InetAddress.getByAddress` is not modelled as failing, because it cannot fail for four bytes.
- Closing JmDNS (`cur.close()`) and its IOException are not modelled, because they change no table.
- Hashtable and HashMap iteration order is a ghost choice the proofs quantify over. It is not a particular order.
- Logging is left out.
- The listeners that forward JmDNS events (`SrvListener` in both services and in the receiver) are left out. So are `requestServiceInfo` and `subTypeForServiceTypeAdded`. These only post messages or are empty.
- `Connection.registerService` in the library service is left out. It converts the record with `toServiceInfo` and passes it to JmDNS on a new thread, catching the IOException there.
- `Connection.unregisterService` in the library service is left out. It converts the record and calls JmDNS's `unregisterService` directly on the caller's thread. It dereferences `mDNS` without a null test, so it throws a NullPointerException while discovery is stopped. That failure is not modelled either.
- `ZeroConfRecord.toServiceInfo` is left out. It only builds a JmDNS value.
- `getName` and `setName` are left out. They are generated stubs.
- In the receiver, `startJmDNS`, `stopJmDNS` and `getMDNS` are not modelled. The bodies of `startListening` and `stopListening` are commented out, so those methods are never called. The lock functions are modelled as written.
- `Srv.resolved` is left out of both services and the receiver. The handler never calls it.
- The adapter's constant queries (`getItemViewType`, `getViewTypeCount`, `hasStableIds`, `areAllItemsEnabled`, `isEnabled`) are left out. So are view inflation and the browser's click handler and activities.
- `registerReceiver` and `unregisterReceiver` are left out. They are framework calls.
- Client.ZeroConfClient.DisconnectFromService: `unbindService` is a framework call. The model keeps only its effect (`service = null`).
- The client's `connectToService` is not modelled. It only asks the framework to bind and logs whether the request was accepted.
- The client's `finalize` is not modelled, because it runs when the garbage collector decides. It calls the service's `unregisterService` for each record in `registeredRecords`, then calls `disconnectFromService`. While the client is unbound, `service` is null and the first such call throws a NullPointerException. A RemoteException from one of these calls ends the loop and skips the unbind.
- Null strings and null records passed by callers are not modelled. Every string is a value. A null returned by a lookup is modelled as `None`.
- Java `int` overflow of the counters (`allTypeSubscriptions`, `subscriptions`, `connectionSerialCounter`) is not modelled. The counters are unbounded, and 2^31 subscriptions cannot happen.
- A record is a value in the service, client and browser models. The service's `Srv.record` is shared by reference, and that aliasing is not modelled. The browser's `Shown` holds only what the mirror compares: identity and key.
- Broker.CallLog.Callback: the `RemoteException` outcome is recorded but changes no table. That matches every catch block in the source.

## Findings

| source | as written | input that shows it | evidently intended | confidence | as-written member | corrected member |
|---|---|---|---|---|---|---|
| library/src/prom/android/zeroconf/service/ZeroConfService.java:561-568 | `finalize` enumerates `connectionTypes` while removing from it, so every second type is skipped | a connection subscribed to types A and B is finalized | the connection leaves every bucket | not executed | ZeroConfService.FinalizeKeepsSecondType | ZeroConfService.DetachedLeavesNoSubscription |
| src/prom/android/zeroconf/service/ZeroConfService.java:509-516 | the same skipping enumeration in the earlier service | a connection subscribed to types A and B is finalized | the connection leaves every bucket | not executed | LegacyService.FinalizeKeepsSecondType | LegacyService.DetachedLeavesNoSubscription |
| src/prom/android/zeroconf/ZeroConfService.java:259-266 | the same skipping enumeration in the counting service, so the second type's counter is never decremented | a connection subscribed to types A and B is finalized | every listed type is uncounted | not executed | CountingService.FinalizeKeepsSecondType | CountingService.DetachedLeavesNoSubscription |
| src/prom/android/zeroconf/ZeroConfService.java:41 | `allTypes` is never initialised, so `ensureType` dereferences null | a bound connection calls `subscribeType("_http._tcp")` | an empty map at construction | not executed | CountingService.UninitialisedTypesThrow | CountingService.ReadySubscribeCounts |
| library/src/prom/android/zeroconf/client/ZeroConfClient.java:315-324 | the for-each over `toBeRegistered.values()` removes from the map, so the next iteration throws ConcurrentModificationException | two records queued while unbound; the first replayed register succeeds | every queued record is tried | not executed | Client.SecondPendingNeverTried | Client.ConnectionDrainsQueues |
| library/src/prom/android/zeroconf/client/ZeroConfClient.java:326-334 | a successful replayed unregister never removes the key from `registeredRecords` | register while bound, unregister while unbound, reconnect with success | the key is no longer registered | not executed | Client.ReplayedUnregisterLeavesKey | Client.FixedReplayedUnregisterDropsKey |
