/**
 * The side-menu favourite-location service: business rules on top of the
 * mapper. Adding checks the exact (device, latitude, longitude) key first and
 * then re-reads what was stored; deleting and re-ordering address a row by the
 * same key and fail when the database reports that no row was affected.
 */
module FavoriteService {
  import opened Wrappers
  import opened FavoriteTable
  import opened FavoriteMapper

  /** The four runtime errors the service raises, one per failure message. */
  datatype Failure =
    | AlreadyRegistered      // the place is already among the device's favourites
    | SaveFailed             // the INSERT wrote no row
    | DeleteFailed           // the DELETE removed no row
    | SortOrderUpdateFailed  // the UPDATE changed no row

  datatype Result<T> = Ok(value: T) | Err(error: Failure)

  /** A favourite lies at exactly these coordinates (no tolerance). */
  predicate AtCoordinates(l: Row, latitude: Coord, longitude: Coord) {
    l.latitude == latitude && l.longitude == longitude
  }

  /**
   * The first favourite of a list, in list order, at exactly the given
   * coordinates, or nothing when there is none (a stream filter, then findFirst).
   */
  function FirstByCoordinates(locations: seq<Row>, latitude: Coord, longitude: Coord): (found: Option<Row>)
    ensures found.None? <==> forall i :: 0 <= i < |locations| ==> !AtCoordinates(locations[i], latitude, longitude)
    ensures found.Some? ==> found.value in locations && AtCoordinates(found.value, latitude, longitude)
  {
    if locations == [] then None
    else if AtCoordinates(locations[0], latitude, longitude) then Some(locations[0])
    else
      assert forall i :: 0 < i < |locations| ==> locations[i] == locations[1..][i - 1];
      FirstByCoordinates(locations[1..], latitude, longitude)
  }

  /** First match wins: a matching entry preceded by no match is the one returned. */
  lemma {:induction false} FirstMatchWins(locations: seq<Row>, latitude: Coord, longitude: Coord, i: nat)
    requires i < |locations| && AtCoordinates(locations[i], latitude, longitude)
    requires forall j :: 0 <= j < i ==> !AtCoordinates(locations[j], latitude, longitude)
    ensures FirstByCoordinates(locations, latitude, longitude) == Some(locations[i])
  {
    if i > 0 {
      FirstMatchWins(locations[1..], latitude, longitude, i - 1);
    }
  }

  /** Entries at other coordinates in front of a list do not change which entry is found. */
  lemma {:induction false} FirstByCoordinatesSkips(front: seq<Row>, back: seq<Row>, latitude: Coord, longitude: Coord)
    requires forall l :: l in front ==> !AtCoordinates(l, latitude, longitude)
    ensures FirstByCoordinates(front + back, latitude, longitude) == FirstByCoordinates(back, latitude, longitude)
  {
    if front != [] {
      assert (front + back)[0] == front[0] && front[0] in front;
      assert (front + back)[1..] == front[1..] + back;
      FirstByCoordinatesSkips(front[1..], back, latitude, longitude);
    } else {
      assert front + back == back;
    }
  }

  /**
   * The existence query agrees with the list: a key is present exactly when the
   * device's list holds a favourite at those coordinates.
   */
  lemma HasKeyIffListed(rows: seq<Row>, deviceId: string, latitude: Coord, longitude: Coord)
    ensures HasKey(rows, deviceId, latitude, longitude)
        <==> exists l :: l in RowsOf(rows, deviceId) && AtCoordinates(l, latitude, longitude)
  {
    if HasKey(rows, deviceId, latitude, longitude) {
      var i :| 0 <= i < |rows| && SameKey(rows[i], deviceId, latitude, longitude);
      assert rows[i] in RowsOf(rows, deviceId);
    }
    if l :| l in RowsOf(rows, deviceId) && AtCoordinates(l, latitude, longitude) {
      var i :| 0 <= i < |rows| && rows[i] == l;
      assert SameKey(rows[i], deviceId, latitude, longitude);
    }
  }

  class SmFavoriteLocationService {
    const mapper: FavoriteLocationMapper

    constructor (mapper: FavoriteLocationMapper)
      ensures this.mapper == mapper
    {
      this.mapper := mapper;
    }

    /**
     * Saves a place for a device. A key already present fails with
     * AlreadyRegistered and writes nothing; an INSERT that writes no row fails
     * with SaveFailed; otherwise the result is the first favourite of the
     * device's re-read list at the requested coordinates, which is the row
     * just inserted.
     */
    method AddSmFavoriteLocation(req: Request, outcome: InsertOutcome) returns (r: Result<Option<Row>>)
      requires mapper.Valid()
      modifies mapper
      ensures mapper.Valid()
      ensures old(mapper.ExistsByLatitudeAndLongitude(req.latitude, req.longitude, req.deviceId)) ==>
                r == Err(AlreadyRegistered) &&
                mapper.rows == old(mapper.rows) && mapper.nextSeqNo == old(mapper.nextSeqNo)
      ensures !old(mapper.ExistsByLatitudeAndLongitude(req.latitude, req.longitude, req.deviceId)) && outcome.Refused? ==>
                r == Err(SaveFailed) &&
                mapper.rows == old(mapper.rows) && mapper.nextSeqNo == old(mapper.nextSeqNo)
      ensures !old(mapper.ExistsByLatitudeAndLongitude(req.latitude, req.longitude, req.deviceId)) && outcome.Stored? ==>
                var row := NewRow(req, old(mapper.nextSeqNo), outcome.createdAt);
                mapper.rows == old(mapper.rows) + [row] &&
                r == Ok(FirstByCoordinates(mapper.SelectFavoriteLocationsByUserId(req.deviceId), req.latitude, req.longitude)) &&
                r == Ok(Some(row)) &&
                (forall q :: q in old(mapper.rows) ==> q.seqNo != row.seqNo)
      ensures r.Ok? ==> r.value.Some? && AtCoordinates(r.value.value, req.latitude, req.longitude) &&
                        mapper.ExistsByLatitudeAndLongitude(req.latitude, req.longitude, req.deviceId)
      ensures KeysUnique(old(mapper.rows)) ==> KeysUnique(mapper.rows)
    {
      var duplicate := mapper.ExistsByLatitudeAndLongitude(req.latitude, req.longitude, req.deviceId);
      if duplicate {
        return Err(AlreadyRegistered);
      }
      ghost var before := mapper.rows;
      var count := mapper.InsertFavoriteLocation(req, outcome);
      if count > 0 {
        ghost var row := NewRow(req, old(mapper.nextSeqNo), outcome.createdAt);
        RowsOfAppend(before, row, req.deviceId);
        assert forall l :: l in RowsOf(before, req.deviceId) ==> !AtCoordinates(l, req.latitude, req.longitude) by {
          HasKeyIffListed(before, req.deviceId, req.latitude, req.longitude);
        }
        FirstByCoordinatesSkips(RowsOf(before, req.deviceId), [row], req.latitude, req.longitude);
        if KeysUnique(before) {
          AppendKeepsKeysUnique(before, row);
        }
        assert mapper.rows[|before|] == row;
        var found := GetSmFavoriteLocationByCoordinates(req.latitude, req.longitude, req.deviceId);
        r := Ok(found);
      } else {
        r := Err(SaveFailed);
      }
    }

    /** The device's favourites exactly as the list query returns them. */
    method GetSmFavoriteLocations(deviceId: string) returns (locations: seq<Row>)
      ensures locations == mapper.SelectFavoriteLocationsByUserId(deviceId)
      ensures forall l :: l in locations ==> l.deviceId == deviceId
      ensures |locations| == mapper.CountFavoriteLocationsByDeviceId(deviceId)
    {
      locations := mapper.SelectFavoriteLocationsByUserId(deviceId);
    }

    /**
     * Deletes the device's favourite at the coordinates. Succeeds exactly when
     * the key was present; removes exactly the rows with that key and leaves
     * every other device's favourites as they were.
     */
    method DeleteSmFavoriteLocation(latitude: Coord, longitude: Coord, deviceId: string) returns (r: Result<()>)
      requires mapper.Valid()
      modifies mapper
      ensures mapper.Valid()
      ensures r == if old(mapper.ExistsByLatitudeAndLongitude(latitude, longitude, deviceId)) then Ok(()) else Err(DeleteFailed)
      ensures mapper.rows == Without(old(mapper.rows), deviceId, latitude, longitude)
      ensures mapper.nextSeqNo == old(mapper.nextSeqNo)
      ensures !mapper.ExistsByLatitudeAndLongitude(latitude, longitude, deviceId)
      ensures forall other :: other != deviceId ==>
                RowsOf(mapper.rows, other) == RowsOf(old(mapper.rows), other)
      ensures KeysUnique(old(mapper.rows)) ==>
                KeysUnique(mapper.rows) && |mapper.rows| == |old(mapper.rows)| - (if r.Ok? then 1 else 0)
    {
      ghost var before := mapper.rows;
      var count := mapper.DeleteFavoriteLocation(deviceId, latitude, longitude);
      if count > 0 {
        r := Ok(());
      } else {
        r := Err(DeleteFailed);
      }
      forall other | other != deviceId
        ensures RowsOf(mapper.rows, other) == RowsOf(before, other)
      {
        WithoutKeepsOtherDevices(before, deviceId, latitude, longitude, other);
      }
      if KeysUnique(before) {
        UniqueKeyMatchesAtMostOnce(before, deviceId, latitude, longitude);
        WithoutKeepsKeysUnique(before, deviceId, latitude, longitude);
      }
    }

    /** Whether the device already saved a favourite at exactly these coordinates. */
    method CheckDuplicateLocation(latitude: Coord, longitude: Coord, deviceId: string) returns (duplicate: bool)
      ensures duplicate == mapper.ExistsByLatitudeAndLongitude(latitude, longitude, deviceId)
      ensures duplicate <==> exists l :: l in mapper.SelectFavoriteLocationsByUserId(deviceId) &&
                                         AtCoordinates(l, latitude, longitude)
    {
      duplicate := mapper.ExistsByLatitudeAndLongitude(latitude, longitude, deviceId);
      HasKeyIffListed(mapper.rows, deviceId, latitude, longitude);
    }

    /**
     * Sets the sort order of the device's favourite at the coordinates.
     * Succeeds exactly when the key was present; only sort orders of rows with
     * that key change, and every other device's favourites stay as they were.
     */
    method UpdateSmFavoriteLocationSortOrder(latitude: Coord, longitude: Coord, deviceId: string,
                                             sortOrder: Option<int>) returns (r: Result<()>)
      requires mapper.Valid()
      modifies mapper
      ensures mapper.Valid()
      ensures r == if old(mapper.ExistsByLatitudeAndLongitude(latitude, longitude, deviceId)) then Ok(())
                   else Err(SortOrderUpdateFailed)
      ensures mapper.rows == WithSortOrder(old(mapper.rows), deviceId, latitude, longitude, sortOrder)
      ensures mapper.nextSeqNo == old(mapper.nextSeqNo)
      ensures |mapper.rows| == |old(mapper.rows)|
      ensures forall i :: 0 <= i < |mapper.rows| ==> SameButSortOrder(mapper.rows[i], old(mapper.rows)[i])
      ensures forall other :: other != deviceId ==>
                RowsOf(mapper.rows, other) == RowsOf(old(mapper.rows), other)
      ensures KeysUnique(old(mapper.rows)) ==> KeysUnique(mapper.rows)
    {
      ghost var before := mapper.rows;
      var count := mapper.UpdateFavoriteLocationSortOrder(deviceId, latitude, longitude, sortOrder);
      if count > 0 {
        r := Ok(());
      } else {
        r := Err(SortOrderUpdateFailed);
      }
      WithSortOrderOnlyTouchesSortOrder(before, deviceId, latitude, longitude, sortOrder);
      forall other | other != deviceId
        ensures RowsOf(mapper.rows, other) == RowsOf(before, other)
      {
        WithSortOrderKeepsOtherDevices(before, deviceId, latitude, longitude, sortOrder, other);
      }
      if KeysUnique(before) {
        WithSortOrderKeepsKeysUnique(before, deviceId, latitude, longitude, sortOrder);
      }
    }

    /** The first favourite of the device's list at exactly the coordinates, or nothing. */
    method GetSmFavoriteLocationByCoordinates(latitude: Coord, longitude: Coord, deviceId: string)
      returns (found: Option<Row>)
      ensures found == FirstByCoordinates(mapper.SelectFavoriteLocationsByUserId(deviceId), latitude, longitude)
      ensures found.Some? ==> found.value.deviceId == deviceId && AtCoordinates(found.value, latitude, longitude)
      ensures found.None? <==> !mapper.ExistsByLatitudeAndLongitude(latitude, longitude, deviceId)
    {
      var locations := mapper.SelectFavoriteLocationsByUserId(deviceId);
      found := FirstByCoordinates(locations, latitude, longitude);
      HasKeyIffListed(mapper.rows, deviceId, latitude, longitude);
    }
  }

  /**
   * A client run: save a place, try to save it again, delete it, and ask
   * whether it is still a favourite.
   */
  method SaveTwiceThenDelete(req: Request, createdAt: int)
  {
    var store := new FavoriteLocationMapper();
    var service := new SmFavoriteLocationService(store);
    var first := service.AddSmFavoriteLocation(req, Stored(createdAt));
    assert first.Ok? && first.value.Some? && first.value.value.seqNo == 1;
    var second := service.AddSmFavoriteLocation(req, Stored(createdAt));
    assert second == Err(AlreadyRegistered);
    var removed := service.DeleteSmFavoriteLocation(req.latitude, req.longitude, req.deviceId);
    assert removed.Ok?;
    var stillThere := service.CheckDuplicateLocation(req.latitude, req.longitude, req.deviceId);
    assert !stillThere;
    var again := service.DeleteSmFavoriteLocation(req.latitude, req.longitude, req.deviceId);
    assert again == Err(DeleteFailed);
  }
}
