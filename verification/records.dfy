/** The record store: the ordered list of inventory records that every route
    handler searches and updates, and the set of photo files in the upload
    directory (main.js:32-45). */
module Records {
  import opened Wrappers

  /** A photo file name as the upload storage generates it,
      `<milliseconds>-<random><extension>`: never the empty string. */
  type FileName = s: string | |s| > 0 witness "0"

  /** One inventory record (main.js:83-88). `photo` is `null` when the item has
      no photo. */
  datatype Record = Record(id: string, name: string, description: string, photo: Option<FileName>)

  /** JavaScript truthiness of an optional string field: present and not `''`. */
  predicate Truthy(field: Option<string>) {
    field.Some? && field.value != ""
  }

  /** `inventoryDB.findIndex(i => i.id === id)`: the FIRST position holding `id`. */
  function FindIndex(db: seq<Record>, id: string): (r: Option<nat>)
    ensures r.None? <==> forall k | 0 <= k < |db| :: db[k].id != id
    ensures r.Some? ==> r.value < |db| && db[r.value].id == id
    ensures r.Some? ==> forall k | 0 <= k < r.value :: db[k].id != id
  {
    if |db| == 0 then None
    else if db[0].id == id then Some(0)
    else match FindIndex(db[1..], id)
      case None => None
      case Some(k) => Some(k + 1)
  }

  /** `inventoryDB.find(i => i.id === id)`: the first record holding `id`. */
  function Find(db: seq<Record>, id: string): (r: Option<Record>)
    ensures r.None? <==> forall k | 0 <= k < |db| :: db[k].id != id
    ensures r.Some? ==> r.value.id == id && r.value in db
  {
    if |db| == 0 then None
    else if db[0].id == id then Some(db[0])
    else Find(db[1..], id)
  }

  /** `find` and `findIndex` with the same test pick the same record. */
  lemma {:induction false} FindAgreesWithFindIndex(db: seq<Record>, id: string)
    ensures Find(db, id).Some? <==> FindIndex(db, id).Some?
    ensures Find(db, id).Some? ==> Find(db, id).value == db[FindIndex(db, id).value]
  {
    if |db| > 0 && db[0].id != id {
      FindAgreesWithFindIndex(db[1..], id);
    }
  }

  /** The record at the first position holding `id` is the one `find` returns. */
  lemma {:induction false} FindFirst(db: seq<Record>, i: nat, id: string)
    requires i < |db| && db[i].id == id
    requires forall k | 0 <= k < i :: db[k].id != id
    ensures Find(db, id) == Some(db[i])
  {
    if i > 0 {
      FindFirst(db[1..], i - 1, id);
    }
  }

  /** Appending a record changes `find` only for an id not present before. */
  lemma {:induction false} FindAppend(db: seq<Record>, item: Record, id: string)
    ensures Find(db + [item], id) ==
            if Find(db, id).Some? then Find(db, id)
            else if item.id == id then Some(item) else None
  {
    if |db| == 0 {
      assert db + [item] == [item];
    } else {
      assert (db + [item])[1..] == db[1..] + [item];
      if db[0].id != id {
        FindAppend(db[1..], item, id);
      }
    }
  }

  /** A record appended under an id not yet in use is the one both lookups find. */
  lemma {:induction false} FindLast(db: seq<Record>, item: Record)
    requires forall k | 0 <= k < |db| :: db[k].id != item.id
    ensures FindIndex(db + [item], item.id) == Some(|db|)
    ensures Find(db + [item], item.id) == Some(item)
  {
    var db' := db + [item];
    assert forall k | 0 <= k < |db| :: db'[k] == db[k];
    FindFirst(db', |db|, item.id);
  }

  /** `inventoryDB.splice(i, 1)`: drop position `i`, keep the others in order. */
  function RemoveAt(db: seq<Record>, i: nat): (r: seq<Record>)
    requires i < |db|
    ensures |r| == |db| - 1
    ensures forall k | 0 <= k < i :: r[k] == db[k]
    ensures forall k | i <= k < |r| :: r[k] == db[k + 1]
    ensures multiset(r) + multiset{db[i]} == multiset(db)
  {
    assert db == db[..i] + [db[i]] + db[i + 1..];
    db[..i] + db[i + 1..]
  }

  /** `deleteFileIfExist` (main.js:34-45) on the set of files in the upload
      directory: a `null` name or a file that is already gone leaves it as it is,
      otherwise exactly that one file disappears. */
  function Release(disk: set<FileName>, file: Option<FileName>): (r: set<FileName>)
    ensures r <= disk
    ensures file.Some? ==> file.value !in r && disk - r <= {file.value}
    ensures file.None? || file.value !in disk ==> r == disk
  {
    if file.Some? && file.value in disk then disk - {file.value} else disk
  }

  /** The decimal digit `d` as a character. */
  function Digit(d: nat): (c: char)
    requires d < 10
    ensures '0' <= c <= '9'
  {
    ('0' as int + d) as char
  }

  /** `n.toString()` for a non-negative integer: its decimal digits, most
      significant first, without leading zeros. The record id is
      `Date.now().toString()` (main.js:84). */
  function DecimalString(n: nat): (s: string)
    ensures |s| >= 1
    ensures forall k | 0 <= k < |s| :: '0' <= s[k] <= '9'
    ensures s[0] == '0' ==> n == 0
    ensures n >= 10 ==> |s| >= 2
  {
    if n < 10 then [Digit(n)] else DecimalString(n / 10) + [Digit(n % 10)]
  }

  /** The number a string of decimal digits denotes, most significant first. */
  function DecimalValue(s: string): (n: nat)
    requires forall k | 0 <= k < |s| :: '0' <= s[k] <= '9'
    ensures |s| == 1 ==> n == s[0] as int - '0' as int
  {
    if |s| == 0 then 0
    else 10 * DecimalValue(s[..|s| - 1]) + (s[|s| - 1] as int - '0' as int)
  }

  /** The id string denotes the clock reading it was made from. */
  lemma {:induction false} DecimalStringValue(n: nat)
    ensures DecimalValue(DecimalString(n)) == n
  {
    if n >= 10 {
      var s := DecimalString(n);
      assert s[..|s| - 1] == DecimalString(n / 10);
      DecimalStringValue(n / 10);
    }
  }

  /** Two different clock readings give two different ids. */
  lemma {:induction false} DecimalStringInjective(a: nat, b: nat)
    requires DecimalString(a) == DecimalString(b)
    ensures a == b
  {
    var sa, sb := DecimalString(a), DecimalString(b);
    if a >= 10 && b >= 10 {
      assert sa[..|sa| - 1] == DecimalString(a / 10);
      assert sb[..|sb| - 1] == DecimalString(b / 10);
      DecimalStringInjective(a / 10, b / 10);
      assert Digit(a % 10) == sa[|sa| - 1] == sb[|sb| - 1] == Digit(b % 10);
    } else {
      assert sa[0] == sb[0];
    }
  }
}
