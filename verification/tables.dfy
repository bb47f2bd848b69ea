/** The two static code tables: the Traditional (TW) and the Simplified (CN)
    character-to-telegraph-code maps. */
module Tables {
  import opened Options

  /** A static table: each key is a character (as a string), each value its
      telegraph code. A map cannot hold a key twice, which is the table's
      uniqueness invariant. */
  type CodeTable = map<string, nat>

  /** Every key of the table is exactly one Unicode scalar value. The lookup
      itself never checks this; the dispatcher's "exactly one character"
      behaviour rests on it. */
  ghost predicate SingleCharKeys(t: CodeTable) {
    forall k :: k in t ==> |k| == 1
  }

  /** Exact-key lookup of the static map, with the found code copied out
      (`get(..).copied()`). */
  function Get(t: CodeTable, key: string): (r: Option<nat>)
    ensures r.Some? <==> key in t
    ensures r.Some? ==> r.value == t[key]
  {
    if key in t then Some(t[key]) else None
  }

  /** One line of a generated table: a character and its code. */
  datatype CodeEntry = CodeEntry(character: string, code: nat)

  /** No character appears in two entries of the list. */
  ghost predicate DistinctKeys(entries: seq<CodeEntry>) {
    forall i, j :: 0 <= i < j < |entries| ==> entries[i].character != entries[j].character
  }

  /** The characters an entry list gives codes for. */
  function Characters(entries: seq<CodeEntry>): set<string> {
    if |entries| == 0 then {} else {entries[0].character} + Characters(entries[1..])
  }

  /** A character is among the listed ones exactly when some entry names it. */
  lemma {:induction false} CharactersListed(entries: seq<CodeEntry>, key: string)
    ensures key in Characters(entries) <==> exists i :: 0 <= i < |entries| && entries[i].character == key
  {
    if |entries| > 0 {
      var tail := entries[1..];
      CharactersListed(tail, key);
      if key in Characters(tail) {
        var i :| 0 <= i < |tail| && tail[i].character == key;
        assert entries[i + 1].character == key;
      }
      if exists i :: 0 <= i < |entries| && entries[i].character == key {
        var i :| 0 <= i < |entries| && entries[i].character == key;
        if i > 0 {
          assert tail[i - 1].character == key;
        }
      }
    }
  }

  /** A non-empty list has distinct keys exactly when its tail has and its
      head's character is not listed again. */
  lemma DistinctKeysCons(entries: seq<CodeEntry>)
    requires |entries| > 0
    ensures DistinctKeys(entries) <==>
              DistinctKeys(entries[1..]) && entries[0].character !in Characters(entries[1..])
  {
    var head, tail := entries[0], entries[1..];
    CharactersListed(tail, head.character);
    if DistinctKeys(entries) {
      forall i, j | 0 <= i < j < |tail|
        ensures tail[i].character != tail[j].character
      {
        assert tail[i] == entries[i + 1] && tail[j] == entries[j + 1];
      }
      forall j | 0 <= j < |tail|
        ensures tail[j].character != head.character
      {
        assert tail[j] == entries[j + 1];
      }
    }
    if DistinctKeys(tail) && head.character !in Characters(tail) {
      forall i, j | 0 <= i < j < |entries|
        ensures entries[i].character != entries[j].character
      {
        if i == 0 {
          assert entries[j] == tail[j - 1];
        } else {
          assert entries[i] == tail[i - 1] && entries[j] == tail[j - 1];
        }
      }
    }
  }

  /** The table `t` holds exactly the listed characters, each mapped to the
      code its entry gives. */
  ghost predicate Denotes(entries: seq<CodeEntry>, t: CodeTable) {
    && t.Keys == Characters(entries)
    && forall i :: 0 <= i < |entries| ==> entries[i].character in t && t[entries[i].character] == entries[i].code
  }

  /** Adding a new head entry to a list adds its character and code to the
      table the tail denotes, and one key to its size. */
  lemma DenotesCons(entries: seq<CodeEntry>, rest: CodeTable)
    requires |entries| > 0
    requires Denotes(entries[1..], rest) && |rest| == |entries| - 1
    requires entries[0].character !in rest
    ensures Denotes(entries, rest[entries[0].character := entries[0].code])
    ensures |rest[entries[0].character := entries[0].code]| == |entries|
  {
    var head, tail := entries[0], entries[1..];
    var t := rest[head.character := head.code];
    forall i | 0 < i < |entries|
      ensures entries[i].character in t && t[entries[i].character] == entries[i].code
    {
      assert entries[i] == tail[i - 1];
    }
  }

  /** Builds the static table from its entry list. A character listed twice
      is corrupt table data, a build-time failure, modelled as `None`. */
  function BuildTable(entries: seq<CodeEntry>): (r: Option<CodeTable>)
    ensures r.Some? <==> DistinctKeys(entries)
    ensures r.Some? ==> Denotes(entries, r.value) && |r.value| == |entries|
  {
    if |entries| == 0 then Some(map[])
    else
      var head, tail := entries[0], entries[1..];
      DistinctKeysCons(entries);
      match BuildTable(tail)
      case None => None
      case Some(rest) =>
        if head.character in rest then None
        else
          DenotesCons(entries, rest);
          Some(rest[head.character := head.code])
  }

  /** Entry `i` is the first entry of the list that names `key`. */
  ghost predicate FirstListing(entries: seq<CodeEntry>, key: string, i: int) {
    && 0 <= i < |entries|
    && entries[i].character == key
    && forall j :: 0 <= j < i ==> entries[j].character != key
  }

  /** Reference lookup straight over the entry list: the code of the first
      entry whose character is the key. */
  function Find(entries: seq<CodeEntry>, key: string): (r: Option<nat>)
    ensures r.Some? <==> key in Characters(entries)
    ensures r.Some? ==> CodeEntry(key, r.value) in entries
    ensures r.Some? ==> exists i :: FirstListing(entries, key, i) && entries[i].code == r.value
  {
    if |entries| == 0 then None
    else if entries[0].character == key then
      assert FirstListing(entries, key, 0);
      Some(entries[0].code)
    else
      var tail := entries[1..];
      var r := Find(tail, key);
      assert r.Some? ==> exists i :: FirstListing(entries, key, i) && entries[i].code == r.value by {
        if r.Some? {
          var i :| FirstListing(tail, key, i) && tail[i].code == r.value;
          forall j | 0 <= j < i + 1
            ensures entries[j].character != key
          {
            if j > 0 {
              assert entries[j] == tail[j - 1];
            }
          }
          assert FirstListing(entries, key, i + 1);
        }
      }
      r
  }

  /** A built table answers every key exactly as a scan of its entries does. */
  lemma BuildTableAgreesWithFind(entries: seq<CodeEntry>, key: string)
    requires BuildTable(entries).Some?
    ensures Get(BuildTable(entries).value, key) == Find(entries, key)
  {
    match Find(entries, key)
    case None =>
    case Some(n) =>
      var i :| 0 <= i < |entries| && entries[i] == CodeEntry(key, n);
  }

  /** A built table maps a key to a code exactly when the list has that
      entry. */
  lemma BuildTableEntry(entries: seq<CodeEntry>, key: string, n: nat)
    requires BuildTable(entries).Some?
    ensures Get(BuildTable(entries).value, key) == Some(n) <==> CodeEntry(key, n) in entries
  {
    var t := BuildTable(entries).value;
    if key in t {
      CharactersListed(entries, key);
      var i :| 0 <= i < |entries| && entries[i].character == key;
      assert t[key] == entries[i].code;
      if CodeEntry(key, n) in entries {
        var j :| 0 <= j < |entries| && entries[j] == CodeEntry(key, n);
        assert t[key] == n;
      }
    }
  }

  /** A built table has single-character keys exactly when every entry
      names one character. */
  lemma BuildTableSingleCharKeys(entries: seq<CodeEntry>)
    requires BuildTable(entries).Some?
    ensures SingleCharKeys(BuildTable(entries).value) <==>
              forall i :: 0 <= i < |entries| ==> |entries[i].character| == 1
  {
    var t := BuildTable(entries).value;
    if SingleCharKeys(t) {
      forall i | 0 <= i < |entries|
        ensures |entries[i].character| == 1
      {
        assert entries[i].character in t;
      }
    } else {
      var k :| k in t && |k| != 1;
      CharactersListed(entries, k);
    }
  }
}
