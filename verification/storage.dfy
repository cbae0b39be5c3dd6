/**
 * `DataStorage` over an abstract key/value store (the `localStorage` of the
 * browser): a serialised value is written under its key, or, when it is
 * longer than 5 Mi UTF-16 units, split into chunks of 1 Mi units written
 * under `${key}_chunk_${i}` with the marker `CHUNKED:${n}` under the key
 * itself.
 *
 * Stored values are JavaScript strings, so they are modelled as UTF-16 code
 * units: lengths, the inline limit and the chunk slices count units, and a
 * chunk may end or begin with half of a surrogate pair, as in the browser.
 * The serialiser (`JSON.stringify`) is outside the model: the save functions
 * take its output. The parser (`JSON.parse`) is a parameter returning None
 * where it would throw.
 */
module ChunkedStorage {
  import opened Wrappers
  import opened Text
  import opened Seqs
  import opened Arith
  import opened Utf16

  /** The store: `getItem` is a lookup, `setItem` an update, `removeItem` a removal. */
  type Store = map<string, Units>

  /** `1024 * 1024`: the length in units of every chunk but the last. */
  const ChunkLength := 1048576

  /** `5 * 1024 * 1024`: values up to this many units are stored whole. */
  const InlineLimit := 5242880

  /** The prefix that marks a chunked value's metadata. */
  const Marker := "CHUNKED:"

  /** `${key}_chunk_${i}`. */
  function ChunkKey(key: string, i: nat): (r: string)
    ensures |r| > |key| && r[..|key|] == key
  {
    key + "_chunk_" + NatToString(i)
  }

  /** Different chunk numbers give different keys, none of them the base key. */
  lemma ChunkKeyInjective(key: string, i: nat, j: nat)
    ensures ChunkKey(key, i) != key
    ensures ChunkKey(key, i) == ChunkKey(key, j) ==> i == j
  {
    if ChunkKey(key, i) == ChunkKey(key, j) {
      var n := |key| + 7;
      assert ChunkKey(key, i)[n..] == NatToString(i);
      assert ChunkKey(key, j)[n..] == NatToString(j);
      NatToStringInjective(i, j);
    }
  }

  /** The keys of the first `n` chunks. */
  function ChunkKeys(key: string, n: nat): set<string> {
    set i: nat | i < n :: ChunkKey(key, i)
  }

  /** `Math.ceil(length / chunkSize)`. */
  function ChunkCount(s: Units): (n: nat)
    ensures ChunkLength * (n - 1) < |s| <= ChunkLength * n
  {
    CeilDiv(|s|, ChunkLength)
  }

  /** Chunk `i`: `s.slice(i * chunkSize, Math.min(i * chunkSize + chunkSize, s.length))`. */
  function Chunk(s: Units, i: nat): (r: Units)
    ensures |r| <= ChunkLength
    ensures i * ChunkLength < |s| ==> |r| > 0 && r == s[i * ChunkLength..Min(i * ChunkLength + ChunkLength, |s|)]
  {
    Slice(s, i * ChunkLength, Min(i * ChunkLength + ChunkLength, |s|))
  }

  /** `CHUNKED:${n}`, as stored. */
  function Metadata(n: nat): Units {
    Encode(Marker + NatToString(n))
  }

  /** The loop writing chunks `0 .. n-1`: each chunk key holds its chunk, every other key is untouched. */
  function WriteChunks(st: Store, key: string, s: Units, n: nat): (r: Store)
    ensures forall i: nat :: i < n ==> ChunkKey(key, i) in r && r[ChunkKey(key, i)] == Chunk(s, i)
    ensures r - ChunkKeys(key, n) == st - ChunkKeys(key, n)
    decreases n
  {
    if n == 0 then st
    else
      var p := WriteChunks(st, key, s, n - 1);
      var r := p[ChunkKey(key, n - 1) := Chunk(s, n - 1)];
      forall i: nat | i < n - 1
        ensures ChunkKey(key, i) != ChunkKey(key, n - 1)
      {
        ChunkKeyInjective(key, i, n - 1);
      }
      assert ChunkKeys(key, n) == ChunkKeys(key, n - 1) + {ChunkKey(key, n - 1)};
      UpdateOutside(p, ChunkKey(key, n - 1), Chunk(s, n - 1), ChunkKeys(key, n));
      MinusMore(p, st, ChunkKeys(key, n - 1), ChunkKey(key, n - 1));
      r
  }

  /** Updating a key that is then removed leaves no trace. */
  lemma UpdateOutside(st: Store, k: string, v: Units, ks: set<string>)
    requires k in ks
    ensures st[k := v] - ks == st - ks
  {
  }

  /** Two stores that agree outside `ks` agree outside `ks + {k}`. */
  lemma MinusMore(a: Store, b: Store, ks: set<string>, k: string)
    requires a - ks == b - ks
    ensures a - (ks + {k}) == b - (ks + {k})
  {
    assert a - (ks + {k}) == (a - ks) - {k};
    assert b - (ks + {k}) == (b - ks) - {k};
  }

  /** Two stores that agree outside `ks` agree on every key not in `ks`. */
  lemma AgreeOutside(a: Store, b: Store, ks: set<string>, k: string)
    requires a - ks == b - ks && k !in ks
    ensures k in a <==> k in b
    ensures k in a ==> k in b && a[k] == b[k]
  {
    assert k in a <==> k in a - ks;
    assert k in b <==> k in b - ks;
    if k in a {
      assert (a - ks)[k] == a[k];
      assert (b - ks)[k] == b[k];
    }
  }

  /** `saveChunkedData`: the metadata under the key, then every chunk. */
  function SaveChunked(st: Store, key: string, s: Units): Store {
    var n := ChunkCount(s);
    WriteChunks(st[key := Metadata(n)], key, s, n)
  }

  /** `saveToStorage`: chunked above the inline limit, whole otherwise. */
  function SaveToStorage(st: Store, key: string, s: Units): Store {
    if |s| > InlineLimit then SaveChunked(st, key, s) else st[key := s]
  }

  /**
   * The loop reading chunks `0 .. k-1` and concatenating them; a missing or
   * empty chunk makes the read fail (the source throws, and the load returns
   * null).
   */
  function ReadChunks(st: Store, key: string, k: nat): (r: Option<Units>)
    ensures r.Some? <==> forall i: nat :: i < k ==> ChunkKey(key, i) in st && st[ChunkKey(key, i)] != []
    decreases k
  {
    if k == 0 then Some([])
    else
      match ReadChunks(st, key, k - 1)
      case None => None
      case Some(p) =>
        var ck := ChunkKey(key, k - 1);
        if ck in st && st[ck] != [] then Some(p + st[ck]) else None
  }

  /**
   * `parseInt(metadata.split(':')[1])` as a loop bound: the chunk count, or
   * no iteration at all when it is NaN or not positive.
   */
  function StoredCount(meta: Units): nat {
    var parts := SplitOn(Readable(meta), ':');
    if |parts| < 2 then 0
    else
      match ParseInt(parts[1])
      case None => 0
      case Some(v) => if v > 0 then v else 0
  }

  /** `loadChunkedData`: the chunks joined in order, then parsed; None when the metadata or a chunk is missing. */
  function LoadChunked<T>(st: Store, key: string, parse: Units -> Option<T>): Option<T> {
    if key !in st || !StartsWith(Readable(st[key]), Marker) then None
    else
      match ReadChunks(st, key, StoredCount(st[key]))
      case None => None
      case Some(joined) => parse(joined)
  }

  /** `loadFromStorage`: None for a missing or empty entry, the chunked path for metadata, else the parsed entry. */
  function LoadFromStorage<T>(st: Store, key: string, parse: Units -> Option<T>): Option<T> {
    if key !in st || st[key] == [] then None
    else if StartsWith(Readable(st[key]), Marker) then LoadChunked(st, key, parse)
    else parse(st[key])
  }

  /** The stored metadata reads as the text `CHUNKED:n`. */
  lemma MetadataReads(n: nat)
    ensures Readable(Metadata(n)) == Marker + NatToString(n)
  {
    var digits := NatToString(n);
    var text := Marker + digits;
    forall i | 0 <= i < |text|
      ensures !IsAstral(text[i]) && !('\U{D7FF}' < text[i] < '\U{E000}')
    {
      if i >= |Marker| {
        assert text[i] == digits[i - |Marker|];
        assert IsDigit(digits[i - |Marker|]);
      }
    }
    ReadableEncodeBmp(text);
  }

  /** The metadata reads back as the chunk count it was written with. */
  lemma StoredCountOfMetadata(n: nat)
    ensures StartsWith(Readable(Metadata(n)), Marker)
    ensures StoredCount(Metadata(n)) == n
  {
    MetadataReads(n);
    var digits := NatToString(n);
    var text := Marker + digits;
    assert ':' !in digits by {
      assert forall i :: 0 <= i < |digits| ==> IsDigit(digits[i]);
      assert !IsDigit(':');
    }
    assert text == "CHUNKED" + [':'] + digits;
    assert ':' !in "CHUNKED";
    SplitAfterFreePrefix("CHUNKED", ':', digits);
    SplitOfFree(digits, ':');
    ParseIntOfNatToString(n);
    assert text[..|Marker|] == Marker;
  }

  /** Reading back the chunks written for `s` yields its prefixes, chunk by chunk. */
  lemma {:induction false} ReadWritten(st: Store, key: string, s: Units, k: nat)
    requires k <= ChunkCount(s)
    requires forall i: nat :: i < ChunkCount(s) ==> ChunkKey(key, i) in st && st[ChunkKey(key, i)] == Chunk(s, i)
    ensures ReadChunks(st, key, k) == Some(s[..Min(k * ChunkLength, |s|)])
    decreases k
  {
    if k > 0 {
      ReadWritten(st, key, s, k - 1);
      var a := (k - 1) * ChunkLength;
      assert a < |s| by {
        assert ChunkLength * (ChunkCount(s) - 1) < |s|;
        assert a <= ChunkLength * (ChunkCount(s) - 1);
      }
      var b := Min(a + ChunkLength, |s|);
      assert Min(k * ChunkLength, |s|) == b;
      assert s[..a] + s[a..b] == s[..b];
    }
  }

  /**
   * The layout `saveChunkedData` leaves: `CHUNKED:n` under the key with
   * `n = ceil(length / 1 MiB)`, `n` chunks of at most 1 MiB each whose
   * in-order concatenation is the value, and every other key untouched.
   */
  lemma ChunkedLayout(st: Store, key: string, s: Units)
    ensures var r := SaveChunked(st, key, s);
      var n := ChunkCount(s);
      && key in r && r[key] == Metadata(n)
      && (forall i: nat :: i < n ==> ChunkKey(key, i) in r && |r[ChunkKey(key, i)]| <= ChunkLength)
      && ReadChunks(r, key, n) == Some(s)
      && r - ({key} + ChunkKeys(key, n)) == st - ({key} + ChunkKeys(key, n))
  {
    var n := ChunkCount(s);
    var r := SaveChunked(st, key, s);
    var m := st[key := Metadata(n)];
    assert key !in ChunkKeys(key, n) by {
      forall i: nat | i < n
        ensures ChunkKey(key, i) != key
      {
        ChunkKeyInjective(key, i, i);
      }
    }
    AgreeOutside(r, m, ChunkKeys(key, n), key);
    ReadWritten(r, key, s, n);
    assert n * ChunkLength == ChunkLength * n;
    assert s[..Min(n * ChunkLength, |s|)] == s;
    MinusMore(r, m, ChunkKeys(key, n), key);
    assert m - (ChunkKeys(key, n) + {key}) == st - (ChunkKeys(key, n) + {key});
    assert ChunkKeys(key, n) + {key} == {key} + ChunkKeys(key, n);
  }

  /** What makes a serialised value distinguishable from chunk metadata: JSON text never begins with `CHUNKED:`. */
  predicate Serialised(s: Units) {
    s != [] && !StartsWith(Readable(s), Marker)
  }

  /** Round trip: loading what was saved parses the saved text, whichever path the save took. */
  lemma SaveLoadRoundTrip<T>(st: Store, key: string, s: Units, parse: Units -> Option<T>)
    requires Serialised(s)
    ensures LoadFromStorage(SaveToStorage(st, key, s), key, parse) == parse(s)
  {
    if |s| > InlineLimit {
      var n := ChunkCount(s);
      ChunkedLayout(st, key, s);
      StoredCountOfMetadata(n);
      assert Metadata(n) != [];
    }
  }

  /** A chunk that is missing (or empty) under chunk metadata makes the load fail. */
  lemma MissingChunkFails<T>(st: Store, key: string, i: nat, parse: Units -> Option<T>)
    requires key in st && StartsWith(Readable(st[key]), Marker)
    requires i < StoredCount(st[key])
    requires ChunkKey(key, i) !in st || st[ChunkKey(key, i)] == []
    ensures LoadFromStorage(st, key, parse) == None
  {
    assert ReadChunks(st, key, StoredCount(st[key])).None?;
  }

  /** The removal loop of `clearChunkedData`: chunks `0 .. n-1` go, nothing else does. */
  function RemoveChunks(st: Store, key: string, n: nat): (r: Store)
    ensures r == st - ChunkKeys(key, n)
    decreases n
  {
    if n == 0 then st
    else
      assert ChunkKeys(key, n) == ChunkKeys(key, n - 1) + {ChunkKey(key, n - 1)};
      RemoveChunks(st, key, n - 1) - {ChunkKey(key, n - 1)}
  }

  /** `clearChunkedData`: the chunks named by the metadata, if any, and the key itself. */
  function ClearChunked(st: Store, key: string): (r: Store)
    ensures key !in r
    ensures forall k :: k in r ==> k in st && r[k] == st[k]
  {
    if key in st && StartsWith(Readable(st[key]), Marker) then RemoveChunks(st, key, StoredCount(st[key])) - {key}
    else st - {key}
  }

  /**
   * Clearing after a chunked save removes exactly what the save wrote: the
   * key and its `n` chunk keys go, every other entry is as before the save.
   */
  lemma ClearAfterSave(st: Store, key: string, s: Units)
    ensures var n := ChunkCount(s);
      ClearChunked(SaveChunked(st, key, s), key) == st - ({key} + ChunkKeys(key, n))
  {
    var n := ChunkCount(s);
    var r := SaveChunked(st, key, s);
    ChunkedLayout(st, key, s);
    StoredCountOfMetadata(n);
    assert RemoveChunks(r, key, n) - {key} == r - ({key} + ChunkKeys(key, n));
  }
}
