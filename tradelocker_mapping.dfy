/** The ticket -> order id mapping file of the TradeLocker copier
    (`load_trade_mapping`, `save_trade_mapping`). JSON object keys are
    strings, so saving writes each ticket with `str` and loading reads it
    back with `int`; reading and writing the file itself is not modelled. */
module TradeLockerMapping {

  import opened Options
  import opened Decimal

  /** What `json.load` gave: no file, a file that could not be opened or
      parsed as a JSON object, or the items of the dict it built: distinct
      keys, in first-insertion order, each with the last value the file
      gave it. */
  datatype MappingFile<V> = Missing | Unreadable | Members(entries: seq<(string, V)>)

  /** `{str(k): v for k, v in mapping.items()}`. */
  function SaveKeys<V>(m: map<int, V>): (saved: map<string, V>)
    ensures forall k :: k in m ==> IntToStr(k) in saved && saved[IntToStr(k)] == m[k]
    ensures forall s :: s in saved ==> exists k :: k in m && s == IntToStr(k)
  {
    KeysReadBack(m);
    map s | s in (set k | k in m :: IntToStr(k)) :: m[Decoded(s, m)]
  }

  /** Every ticket's text reads back as that ticket. */
  lemma KeysReadBack<V>(m: map<int, V>)
    ensures forall k :: k in m ==> StrToInt(IntToStr(k)) == Some(k)
  {
    forall k | k in m {
      IntToStrRoundTrip(k);
    }
  }

  /** The ticket whose text is s. */
  function Decoded<V>(s: string, m: map<int, V>): (k: int)
    requires s in (set k | k in m :: IntToStr(k))
    ensures k in m && IntToStr(k) == s
  {
    IntToStrRoundTrip(KeyWritten(s, m));
    StrToInt(s).value
  }

  ghost function KeyWritten<V>(s: string, m: map<int, V>): (k: int)
    requires s in (set k | k in m :: IntToStr(k))
    ensures k in m && IntToStr(k) == s
  {
    var k :| k in m && IntToStr(k) == s; k
  }

  /** `{int(k): v for k, v in entries}`: `None` when some key is not an
      integer (`int` raises); otherwise every member's key is read as an
      integer, and when two keys denote the same integer ("7" and "07")
      the later member wins (ConvertKeysDomain, ConvertKeysValue). */
  function ConvertKeys<V>(entries: seq<(string, V)>): (r: Option<map<int, V>>)
    ensures r.Some? <==> forall i :: 0 <= i < |entries| ==> StrToInt(entries[i].0).Some?
  {
    if entries == [] then Some(map[])
    else
      var init, last := entries[..|entries| - 1], entries[|entries| - 1];
      assert forall i :: 0 <= i < |init| ==> init[i] == entries[i];
      match ConvertKeys(init)
      case None => None
      case Some(m) =>
        match StrToInt(last.0)
        case None => None
        case Some(k) => Some(m[k := last.1])
  }

  /** Every key of the converted map comes from some member, and every
      member's key is in it. */
  lemma ConvertKeysDomain<V>(entries: seq<(string, V)>)
    requires ConvertKeys(entries).Some?
    ensures forall i :: 0 <= i < |entries| ==> StrToInt(entries[i].0).value in ConvertKeys(entries).value
    ensures forall k :: k in ConvertKeys(entries).value ==>
              exists i :: 0 <= i < |entries| && StrToInt(entries[i].0) == Some(k)
  {
    ConvertKeysCover(entries);
    ConvertKeysFrom(entries);
  }

  /** The last member is read on top of the map of the ones before it. */
  lemma ConvertKeysLast<V>(entries: seq<(string, V)>)
    requires entries != [] && ConvertKeys(entries).Some?
    ensures ConvertKeys(entries[..|entries| - 1]).Some? && StrToInt(entries[|entries| - 1].0).Some?
    ensures ConvertKeys(entries).value ==
              ConvertKeys(entries[..|entries| - 1]).value[StrToInt(entries[|entries| - 1].0).value := entries[|entries| - 1].1]
  {
  }

  lemma {:induction false} ConvertKeysCover<V>(entries: seq<(string, V)>)
    requires ConvertKeys(entries).Some?
    ensures forall i :: 0 <= i < |entries| ==> StrToInt(entries[i].0).value in ConvertKeys(entries).value
  {
    if entries != [] {
      var init := entries[..|entries| - 1];
      ConvertKeysLast(entries);
      ConvertKeysCover(init);
      forall i | 0 <= i < |init|
        ensures StrToInt(entries[i].0).value in ConvertKeys(entries).value
      {
        assert init[i] == entries[i];
      }
    }
  }

  lemma {:induction false} ConvertKeysFrom<V>(entries: seq<(string, V)>)
    requires ConvertKeys(entries).Some?
    ensures forall k :: k in ConvertKeys(entries).value ==>
              exists i :: 0 <= i < |entries| && StrToInt(entries[i].0) == Some(k)
  {
    if entries != [] {
      var init := entries[..|entries| - 1];
      ConvertKeysLast(entries);
      ConvertKeysFrom(init);
      forall k | k in ConvertKeys(entries).value
        ensures exists i :: 0 <= i < |entries| && StrToInt(entries[i].0) == Some(k)
      {
        if k != StrToInt(entries[|entries| - 1].0).value {
          var i :| 0 <= i < |init| && StrToInt(init[i].0) == Some(k);
          assert init[i] == entries[i];
        }
      }
    }
  }

  /** The value under a member's key is that of the last member whose key
      denotes the same integer. */
  lemma {:induction false} ConvertKeysValue<V>(entries: seq<(string, V)>, i: int)
    requires ConvertKeys(entries).Some?
    requires 0 <= i < |entries| && LastWithKey(entries, i)
    ensures StrToInt(entries[i].0).value in ConvertKeys(entries).value
    ensures ConvertKeys(entries).value[StrToInt(entries[i].0).value] == entries[i].1
  {
    var init := entries[..|entries| - 1];
    assert forall j :: 0 <= j < |init| ==> init[j] == entries[j];
    if i < |entries| - 1 {
      assert LastWithKey(init, i);
      ConvertKeysValue(init, i);
      assert StrToInt(entries[|entries| - 1].0) != StrToInt(entries[i].0);
    }
  }

  /** No later member's key denotes the same integer as member i's. */
  ghost predicate LastWithKey<V>(entries: seq<(string, V)>, i: int)
    requires 0 <= i < |entries|
  {
    forall j :: i < j < |entries| ==> StrToInt(entries[j].0) != StrToInt(entries[i].0)
  }

  /** `load_trade_mapping`: a missing file, an unreadable one and a key that
      is not an integer all give the empty mapping. */
  function LoadTradeMapping<V>(file: MappingFile<V>): (m: map<int, V>)
    ensures file.Missing? || file.Unreadable? ==> m == map[]
    ensures file.Members? && ConvertKeys(file.entries).None? ==> m == map[]
    ensures file.Members? && ConvertKeys(file.entries).Some? ==> m == ConvertKeys(file.entries).value
  {
    match file
    case Members(entries) =>
      (match ConvertKeys(entries) case Some(m) => m case None => map[])
    case _ => map[]
  }

  /** The members of a JSON object that lists exactly the saved map, each
      key once, in some order. */
  ghost predicate Lists<V>(entries: seq<(string, V)>, saved: map<string, V>) {
    && (forall i :: 0 <= i < |entries| ==> entries[i].0 in saved && saved[entries[i].0] == entries[i].1)
    && (forall s :: s in saved ==> exists i :: 0 <= i < |entries| && entries[i].0 == s)
    && (forall i, j :: 0 <= i < j < |entries| ==> entries[i].0 != entries[j].0)
  }

  /** A saved key reads back as the ticket it was written from. */
  lemma SavedKeyDecodes<V>(m: map<int, V>, s: string)
    requires s in SaveKeys(m)
    ensures StrToInt(s).Some? && StrToInt(s).value in m
    ensures IntToStr(StrToInt(s).value) == s
    ensures SaveKeys(m)[s] == m[StrToInt(s).value]
  {
    var k :| k in m && s == IntToStr(k);
    IntToStrRoundTrip(k);
  }

  /** Every member of a listing of the saved map has an integer key
      naming the ticket it was saved from, and no two members name the
      same ticket. */
  lemma ListedKeysDecode<V>(m: map<int, V>, entries: seq<(string, V)>)
    requires Lists(entries, SaveKeys(m))
    ensures forall i :: 0 <= i < |entries| ==>
              StrToInt(entries[i].0).Some? && StrToInt(entries[i].0).value in m
              && m[StrToInt(entries[i].0).value] == entries[i].1
    ensures forall i :: 0 <= i < |entries| ==> LastWithKey(entries, i)
  {
    forall i | 0 <= i < |entries|
      ensures StrToInt(entries[i].0).Some? && StrToInt(entries[i].0).value in m
      ensures m[StrToInt(entries[i].0).value] == entries[i].1
    {
      SavedKeyDecodes(m, entries[i].0);
    }
    forall i, j | 0 <= i < j < |entries|
      ensures StrToInt(entries[j].0) != StrToInt(entries[i].0)
    {
      SavedKeyDecodes(m, entries[i].0);
      SavedKeyDecodes(m, entries[j].0);
    }
  }

  /** Each key of the converted map is the ticket of some member. */
  lemma ConvertedKeysWithin<V>(m: map<int, V>, entries: seq<(string, V)>)
    requires ConvertKeys(entries).Some?
    requires forall i :: 0 <= i < |entries| ==> StrToInt(entries[i].0).value in m
    ensures ConvertKeys(entries).value.Keys <= m.Keys
  {
    ConvertKeysDomain(entries);
    forall k | k in ConvertKeys(entries).value
      ensures k in m
    {
      var i :| 0 <= i < |entries| && StrToInt(entries[i].0) == Some(k);
    }
  }

  /** Each saved ticket is loaded with its value. */
  lemma SavedTicketLoaded<V>(m: map<int, V>, entries: seq<(string, V)>, k: int)
    requires Lists(entries, SaveKeys(m))
    requires ConvertKeys(entries).Some?
    requires forall i :: 0 <= i < |entries| ==> LastWithKey(entries, i)
    requires k in m
    ensures k in ConvertKeys(entries).value && ConvertKeys(entries).value[k] == m[k]
  {
    IntToStrRoundTrip(k);
    assert IntToStr(k) in SaveKeys(m);
    var i :| 0 <= i < |entries| && entries[i].0 == IntToStr(k);
    ConvertKeysValue(entries, i);
  }

  /** Loading what was saved gives the mapping back, whatever order the
      members were written in. */
  lemma SaveLoadRoundTrip<V>(m: map<int, V>, entries: seq<(string, V)>)
    requires Lists(entries, SaveKeys(m))
    ensures LoadTradeMapping(Members(entries)) == m
  {
    LoadedWithinSaved(m, entries);
    SavedTicketsLoaded(m, entries);
    SameMap(ConvertKeys(entries).value, m);
  }

  /** Two maps with the same tickets and the same value under each are
      the same map. */
  lemma SameMap<V>(a: map<int, V>, b: map<int, V>)
    requires a.Keys <= b.Keys
    requires forall k :: k in b ==> k in a && a[k] == b[k]
    ensures a == b
  {
    assert forall k :: k in a.Keys <==> k in b.Keys;
    assert a.Keys == b.Keys;
    forall k | k in a
      ensures a[k] == b[k]
    {
    }
  }

  /** A listing of the saved map converts, to tickets that were saved. */
  lemma LoadedWithinSaved<V>(m: map<int, V>, entries: seq<(string, V)>)
    requires Lists(entries, SaveKeys(m))
    ensures ConvertKeys(entries).Some? && ConvertKeys(entries).value.Keys <= m.Keys
  {
    ListedKeysDecode(m, entries);
    ConvertedKeysWithin(m, entries);
  }

  /** Every saved ticket is loaded with its value. */
  lemma SavedTicketsLoaded<V>(m: map<int, V>, entries: seq<(string, V)>)
    requires Lists(entries, SaveKeys(m))
    ensures ConvertKeys(entries).Some?
    ensures forall k :: k in m ==> k in ConvertKeys(entries).value && ConvertKeys(entries).value[k] == m[k]
  {
    ListedKeysDecode(m, entries);
    forall k | k in m
      ensures k in ConvertKeys(entries).value && ConvertKeys(entries).value[k] == m[k]
    {
      SavedTicketLoaded(m, entries, k);
    }
  }
}
