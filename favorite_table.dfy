/**
 * The rows of the favourite-locations table (COM_FAVORITE_LOCATIONS) and the
 * pure functions that say what each query and statement of the mapper does
 * to a sequence of rows, with the lemmas the service relies on.
 */
module FavoriteTable {
  import opened Wrappers

  /** A latitude or longitude as stored (a Java `Double`); only ever compared for equality. */
  type Coord(==, !new)

  /** The add request: the fields a client sends when it saves a place. */
  datatype Request = Request(
    addressName: string,
    latitude: Coord,
    longitude: Coord,
    region1DepthName: Option<string>,
    region2DepthName: Option<string>,
    region3DepthName: Option<string>,
    region3DepthHName: Option<string>,
    deviceId: string)

  /** One stored favourite, as the list query returns it. */
  datatype Row = Row(
    seqNo: int,
    deviceId: string,
    latitude: Coord,
    longitude: Coord,
    addressName: string,
    region1DepthName: Option<string>,
    region2DepthName: Option<string>,
    region3DepthName: Option<string>,
    sortOrder: Option<int>,
    createdAt: int)

  /** The row an accepted INSERT creates: store-assigned key and timestamp, no sort order yet. */
  function NewRow(req: Request, seqNo: int, createdAt: int): Row {
    Row(seqNo, req.deviceId, req.latitude, req.longitude, req.addressName,
        req.region1DepthName, req.region2DepthName, req.region3DepthName, None, createdAt)
  }

  /** The natural key of a favourite: the device that saved it and its exact coordinates. */
  predicate SameKey(r: Row, deviceId: string, latitude: Coord, longitude: Coord) {
    r.deviceId == deviceId && r.latitude == latitude && r.longitude == longitude
  }

  /** Some row of the table carries the key. */
  predicate HasKey(rows: seq<Row>, deviceId: string, latitude: Coord, longitude: Coord) {
    exists i :: 0 <= i < |rows| && SameKey(rows[i], deviceId, latitude, longitude)
  }

  /** No two rows of the table share a key. */
  predicate KeysUnique(rows: seq<Row>) {
    forall i, j :: 0 <= i < j < |rows| ==>
      !SameKey(rows[j], rows[i].deviceId, rows[i].latitude, rows[i].longitude)
  }

  /** No two rows of the table share a sequence number (the surrogate key). */
  predicate SeqNosDistinct(rows: seq<Row>) {
    forall i, j :: 0 <= i < j < |rows| ==> rows[i].seqNo != rows[j].seqNo
  }

  /** The rows of one device, in table order. */
  function RowsOf(rows: seq<Row>, deviceId: string): (s: seq<Row>)
    ensures |s| <= |rows|
    ensures forall r :: r in s <==> r in rows && r.deviceId == deviceId
  {
    if rows == [] then []
    else if rows[0].deviceId == deviceId then [rows[0]] + RowsOf(rows[1..], deviceId)
    else RowsOf(rows[1..], deviceId)
  }

  /** How many rows of one device the table holds, counted row by row. */
  function DeviceCount(rows: seq<Row>, deviceId: string): (n: nat)
    ensures n == |RowsOf(rows, deviceId)|
  {
    if rows == [] then 0
    else (if rows[0].deviceId == deviceId then 1 else 0) + DeviceCount(rows[1..], deviceId)
  }

  /** How many rows carry the key: what a DELETE or UPDATE on that key reports. */
  function MatchCount(rows: seq<Row>, deviceId: string, latitude: Coord, longitude: Coord): (n: nat)
    ensures n <= |rows|
    ensures n > 0 <==> HasKey(rows, deviceId, latitude, longitude)
  {
    if rows == [] then 0
    else
      var rest := MatchCount(rows[1..], deviceId, latitude, longitude);
      assert forall i :: 0 < i < |rows| ==> rows[i] == rows[1..][i - 1];
      assert HasKey(rows[1..], deviceId, latitude, longitude) ==> HasKey(rows, deviceId, latitude, longitude);
      (if SameKey(rows[0], deviceId, latitude, longitude) then 1 else 0) + rest
  }

  /** The table after deleting every row that carries the key. */
  function Without(rows: seq<Row>, deviceId: string, latitude: Coord, longitude: Coord): (s: seq<Row>)
    ensures |s| == |rows| - MatchCount(rows, deviceId, latitude, longitude)
    ensures forall r :: r in s <==> r in rows && !SameKey(r, deviceId, latitude, longitude)
  {
    if rows == [] then []
    else if SameKey(rows[0], deviceId, latitude, longitude) then Without(rows[1..], deviceId, latitude, longitude)
    else [rows[0]] + Without(rows[1..], deviceId, latitude, longitude)
  }

  /** The table after setting the sort order of every row that carries the key. */
  function WithSortOrder(rows: seq<Row>, deviceId: string, latitude: Coord, longitude: Coord,
                         sortOrder: Option<int>): (s: seq<Row>)
    ensures |s| == |rows|
  {
    if rows == [] then []
    else
      var head := if SameKey(rows[0], deviceId, latitude, longitude) then rows[0].(sortOrder := sortOrder) else rows[0];
      [head] + WithSortOrder(rows[1..], deviceId, latitude, longitude, sortOrder)
  }

  /** Rows that are equal apart from their sort order. */
  predicate SameButSortOrder(a: Row, b: Row) {
    a.(sortOrder := None) == b.(sortOrder := None)
  }

  // ---------------------------------------------------------------------------
  // Lemmas

  /** Appending a row extends the device's list by that row, at its end, and by nothing else. */
  lemma {:induction false} RowsOfAppend(rows: seq<Row>, x: Row, deviceId: string)
    ensures RowsOf(rows + [x], deviceId)
         == RowsOf(rows, deviceId) + (if x.deviceId == deviceId then [x] else [])
  {
    if rows != [] {
      assert (rows + [x])[1..] == rows[1..] + [x];
      RowsOfAppend(rows[1..], x, deviceId);
    }
  }

  /** A table whose keys are unique holds at most one row per key. */
  lemma {:induction false} UniqueKeyMatchesAtMostOnce(rows: seq<Row>, deviceId: string, latitude: Coord, longitude: Coord)
    requires KeysUnique(rows)
    ensures MatchCount(rows, deviceId, latitude, longitude) <= 1
  {
    if rows != [] {
      var tail := rows[1..];
      assert KeysUnique(tail) by {
        forall i, j | 0 <= i < j < |tail|
          ensures !SameKey(tail[j], tail[i].deviceId, tail[i].latitude, tail[i].longitude)
        {
          assert tail[i] == rows[i + 1] && tail[j] == rows[j + 1];
        }
      }
      UniqueKeyMatchesAtMostOnce(tail, deviceId, latitude, longitude);
      if SameKey(rows[0], deviceId, latitude, longitude) {
        forall i | 0 <= i < |tail| ensures !SameKey(tail[i], deviceId, latitude, longitude) {
          assert tail[i] == rows[i + 1];
        }
        assert !HasKey(tail, deviceId, latitude, longitude);
      }
    }
  }

  /** Appending a row whose key is not yet present keeps the keys unique. */
  lemma AppendKeepsKeysUnique(rows: seq<Row>, x: Row)
    requires KeysUnique(rows)
    requires !HasKey(rows, x.deviceId, x.latitude, x.longitude)
    ensures KeysUnique(rows + [x])
  {
    var s := rows + [x];
    forall i, j | 0 <= i < j < |s|
      ensures !SameKey(s[j], s[i].deviceId, s[i].latitude, s[i].longitude)
    {
      if j == |rows| {
        assert s[i] == rows[i];
        if SameKey(x, rows[i].deviceId, rows[i].latitude, rows[i].longitude) {
          assert SameKey(rows[i], x.deviceId, x.latitude, x.longitude);
        }
      }
    }
  }

  /** Deleting by key leaves every other device's list exactly as it was. */
  lemma {:induction false} WithoutKeepsOtherDevices(rows: seq<Row>, deviceId: string, latitude: Coord, longitude: Coord,
                                                     other: string)
    requires other != deviceId
    ensures RowsOf(Without(rows, deviceId, latitude, longitude), other) == RowsOf(rows, other)
  {
    if rows != [] {
      WithoutKeepsOtherDevices(rows[1..], deviceId, latitude, longitude, other);
    }
  }

  /** Deleting rows keeps the keys unique: the result is a subsequence of the table. */
  lemma {:induction false} WithoutKeepsKeysUnique(rows: seq<Row>, deviceId: string, latitude: Coord, longitude: Coord)
    requires KeysUnique(rows)
    ensures KeysUnique(Without(rows, deviceId, latitude, longitude))
  {
    if rows != [] {
      var tail := rows[1..];
      assert KeysUnique(tail) by {
        forall i, j | 0 <= i < j < |tail|
          ensures !SameKey(tail[j], tail[i].deviceId, tail[i].latitude, tail[i].longitude)
        {
          assert tail[i] == rows[i + 1] && tail[j] == rows[j + 1];
        }
      }
      WithoutKeepsKeysUnique(tail, deviceId, latitude, longitude);
      if !SameKey(rows[0], deviceId, latitude, longitude) {
        var rest := Without(tail, deviceId, latitude, longitude);
        var s := [rows[0]] + rest;
        assert !HasKey(tail, rows[0].deviceId, rows[0].latitude, rows[0].longitude) by {
          forall k | 0 <= k < |tail|
            ensures !SameKey(tail[k], rows[0].deviceId, rows[0].latitude, rows[0].longitude)
          {
            assert tail[k] == rows[k + 1];
          }
        }
        forall i, j | 0 <= i < j < |s|
          ensures !SameKey(s[j], s[i].deviceId, s[i].latitude, s[i].longitude)
        {
          if i == 0 {
            assert s[j] in rest;
            assert s[j] in tail;
            var k :| 0 <= k < |tail| && tail[k] == s[j];
          } else {
            assert s[i] == rest[i - 1] && s[j] == rest[j - 1];
          }
        }
      }
    }
  }

  /** Deleting rows keeps the sequence numbers distinct: the result is a subsequence of the table. */
  lemma {:induction false} WithoutKeepsSeqNosDistinct(rows: seq<Row>, deviceId: string, latitude: Coord, longitude: Coord)
    requires SeqNosDistinct(rows)
    ensures SeqNosDistinct(Without(rows, deviceId, latitude, longitude))
  {
    if rows != [] {
      var tail := rows[1..];
      assert SeqNosDistinct(tail) by {
        forall i, j | 0 <= i < j < |tail|
          ensures tail[i].seqNo != tail[j].seqNo
        {
          assert tail[i] == rows[i + 1] && tail[j] == rows[j + 1];
        }
      }
      WithoutKeepsSeqNosDistinct(tail, deviceId, latitude, longitude);
      if !SameKey(rows[0], deviceId, latitude, longitude) {
        var rest := Without(tail, deviceId, latitude, longitude);
        var s := [rows[0]] + rest;
        forall i, j | 0 <= i < j < |s|
          ensures s[i].seqNo != s[j].seqNo
        {
          if i == 0 {
            assert s[j] in rest;
            assert s[j] in tail;
            var k :| 0 <= k < |tail| && tail[k] == s[j];
            assert rows[k + 1] == s[j];
          } else {
            assert s[i] == rest[i - 1] && s[j] == rest[j - 1];
          }
        }
      }
    }
  }

  /** UPDATE ... SET sortOrder: row i gets the new sort order exactly when it carries the key. */
  lemma {:induction false} WithSortOrderAt(rows: seq<Row>, deviceId: string, latitude: Coord, longitude: Coord,
                                           sortOrder: Option<int>, i: nat)
    requires i < |rows|
    ensures WithSortOrder(rows, deviceId, latitude, longitude, sortOrder)[i]
         == if SameKey(rows[i], deviceId, latitude, longitude) then rows[i].(sortOrder := sortOrder) else rows[i]
  {
    if i > 0 {
      WithSortOrderAt(rows[1..], deviceId, latitude, longitude, sortOrder, i - 1);
    }
  }

  /**
   * Updating the sort order changes nothing but sort orders: every row keeps its
   * position, key, sequence number and labels.
   */
  lemma WithSortOrderOnlyTouchesSortOrder(rows: seq<Row>, deviceId: string, latitude: Coord, longitude: Coord,
                                          sortOrder: Option<int>)
    ensures var s := WithSortOrder(rows, deviceId, latitude, longitude, sortOrder);
            |s| == |rows| && forall i :: 0 <= i < |rows| ==> SameButSortOrder(s[i], rows[i])
  {
    var s := WithSortOrder(rows, deviceId, latitude, longitude, sortOrder);
    forall i | 0 <= i < |rows| ensures SameButSortOrder(s[i], rows[i]) {
      WithSortOrderAt(rows, deviceId, latitude, longitude, sortOrder, i);
    }
  }

  /** Updating the sort order of one device's row leaves every other device's list exactly as it was. */
  lemma {:induction false} WithSortOrderKeepsOtherDevices(rows: seq<Row>, deviceId: string, latitude: Coord,
                                                           longitude: Coord, sortOrder: Option<int>, other: string)
    requires other != deviceId
    ensures RowsOf(WithSortOrder(rows, deviceId, latitude, longitude, sortOrder), other) == RowsOf(rows, other)
  {
    if rows != [] {
      WithSortOrderKeepsOtherDevices(rows[1..], deviceId, latitude, longitude, sortOrder, other);
    }
  }

  /** Updating sort orders keeps the keys unique (keys are not touched). */
  lemma WithSortOrderKeepsKeysUnique(rows: seq<Row>, deviceId: string, latitude: Coord, longitude: Coord,
                                     sortOrder: Option<int>)
    requires KeysUnique(rows)
    ensures KeysUnique(WithSortOrder(rows, deviceId, latitude, longitude, sortOrder))
  {
    var s := WithSortOrder(rows, deviceId, latitude, longitude, sortOrder);
    forall i, j | 0 <= i < j < |s|
      ensures !SameKey(s[j], s[i].deviceId, s[i].latitude, s[i].longitude)
    {
      WithSortOrderAt(rows, deviceId, latitude, longitude, sortOrder, i);
      WithSortOrderAt(rows, deviceId, latitude, longitude, sortOrder, j);
    }
  }
}
