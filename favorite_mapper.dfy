/**
 * The persistence mapper for the favourite-locations table, as an in-memory
 * store: the whole table (every device's rows) is one sequence, and each
 * mapper statement reports its affected-row count as the database would.
 */
module FavoriteMapper {
  import opened Wrappers
  import opened FavoriteTable

  /**
   * What the database does with one INSERT: it stores the row and stamps it
   * with its creation time, or it reports that no row was written.
   */
  datatype InsertOutcome = Stored(createdAt: int) | Refused

  class FavoriteLocationMapper {
    /** Every row of the table, for all devices, in table order. */
    var rows: seq<Row>
    /** The next value of the table's sequence-number generator. */
    var nextSeqNo: int

    /**
     * Every stored sequence number was drawn from the generator before, and no
     * two rows share one.
     */
    ghost predicate Valid()
      reads this
    {
      (forall r :: r in rows ==> r.seqNo < nextSeqNo) && SeqNosDistinct(rows)
    }

    constructor ()
      ensures Valid()
      ensures rows == [] && nextSeqNo == 1
    {
      rows := [];
      nextSeqNo := 1;
    }

    /** INSERT of the request's fields; the count is the number of rows written. */
    method InsertFavoriteLocation(req: Request, outcome: InsertOutcome) returns (count: int)
      requires Valid()
      modifies this
      ensures Valid()
      ensures outcome.Refused? ==> count == 0 && rows == old(rows) && nextSeqNo == old(nextSeqNo)
      ensures outcome.Stored? ==>
                count == 1 &&
                rows == old(rows) + [NewRow(req, old(nextSeqNo), outcome.createdAt)] &&
                nextSeqNo == old(nextSeqNo) + 1
    ensures outcome.Stored? ==> forall q :: q in old(rows) ==> q.seqNo != old(nextSeqNo)
    {
      match outcome
      case Refused =>
        count := 0;
      case Stored(createdAt) =>
        ghost var before := rows;
        rows := rows + [NewRow(req, nextSeqNo, createdAt)];
        forall i, j | 0 <= i < j < |rows|
          ensures rows[i].seqNo != rows[j].seqNo
        {
          assert rows[i] == before[i] && rows[i] in before;
          if j < |before| {
            assert rows[j] == before[j];
          }
        }
        nextSeqNo := nextSeqNo + 1;
        count := 1;
    }

    /** The list query: the device's rows and no one else's. */
    function SelectFavoriteLocationsByUserId(deviceId: string): (locations: seq<Row>)
      reads this
      ensures forall r :: r in locations <==> r in rows && r.deviceId == deviceId
    {
      RowsOf(rows, deviceId)
    }

    /** The existence query on the exact key, answered as COUNT(*) > 0. */
    function ExistsByLatitudeAndLongitude(latitude: Coord, longitude: Coord, deviceId: string): (found: bool)
      reads this
      ensures found <==> exists i :: 0 <= i < |rows| && SameKey(rows[i], deviceId, latitude, longitude)
    {
      MatchCount(rows, deviceId, latitude, longitude) > 0
    }

    /** The count query: how many favourites the device has saved. */
    function CountFavoriteLocationsByDeviceId(deviceId: string): (n: nat)
      reads this
      ensures n == |SelectFavoriteLocationsByUserId(deviceId)|
    {
      DeviceCount(rows, deviceId)
    }

    /** DELETE by exact key; the count is the number of rows removed. */
    method DeleteFavoriteLocation(deviceId: string, latitude: Coord, longitude: Coord) returns (count: int)
      requires Valid()
      modifies this
      ensures Valid()
      ensures count == MatchCount(old(rows), deviceId, latitude, longitude)
      ensures rows == Without(old(rows), deviceId, latitude, longitude)
      ensures nextSeqNo == old(nextSeqNo)
    {
      count := MatchCount(rows, deviceId, latitude, longitude);
      WithoutKeepsSeqNosDistinct(rows, deviceId, latitude, longitude);
      rows := Without(rows, deviceId, latitude, longitude);
    }

    /** UPDATE of the sort order by exact key; the count is the number of rows changed. */
    method UpdateFavoriteLocationSortOrder(deviceId: string, latitude: Coord, longitude: Coord,
                                           sortOrder: Option<int>) returns (count: int)
      requires Valid()
      modifies this
      ensures Valid()
      ensures count == MatchCount(old(rows), deviceId, latitude, longitude)
      ensures rows == WithSortOrder(old(rows), deviceId, latitude, longitude, sortOrder)
      ensures nextSeqNo == old(nextSeqNo)
    {
      count := MatchCount(rows, deviceId, latitude, longitude);
      WithSortOrderKeeps(rows, deviceId, latitude, longitude, sortOrder);
      rows := WithSortOrder(rows, deviceId, latitude, longitude, sortOrder);
    }
  }

  /** An UPDATE of sort orders keeps every row's own sequence number, so they stay distinct. */
  lemma WithSortOrderKeeps(rows: seq<Row>, deviceId: string, latitude: Coord, longitude: Coord, sortOrder: Option<int>)
    ensures var s := WithSortOrder(rows, deviceId, latitude, longitude, sortOrder);
            |s| == |rows| && forall i :: 0 <= i < |rows| ==> s[i].seqNo == rows[i].seqNo
    ensures SeqNosDistinct(rows) ==> SeqNosDistinct(WithSortOrder(rows, deviceId, latitude, longitude, sortOrder))
  {
    var s := WithSortOrder(rows, deviceId, latitude, longitude, sortOrder);
    forall i | 0 <= i < |rows|
      ensures s[i].seqNo == rows[i].seqNo
    {
      WithSortOrderAt(rows, deviceId, latitude, longitude, sortOrder, i);
    }
  }
}
