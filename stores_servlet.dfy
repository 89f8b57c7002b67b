/**
 * The request handling of the stores endpoint: the ordered checks on the
 * location parameters, the geocoding query built from an address, and the
 * scoring of every store found near the user, which resolves each store's
 * county, fills a fips-to-score cache once per county, and collects one
 * result per store whose county lookup succeeded.
 *
 * The remote services, the stored check-ins and the percentile tables are
 * given as a `Services` value; stores are scored one after another.
 */
module StoresServlet {
  import opened Optional
  import opened CheckIn
  import opened CountyData
  import opened JavaText

  datatype LatLng = LatLng(latitude: real, longitude: real)

  /** A store found by the places search. */
  datatype Store = Store(id: string, name: string, location: LatLng)

  /** One scored store: the store, its county's score, its check-in stats and the user's location. */
  datatype StoreStats = StoreStats(store: Store, countyScore: real, checkInStats: CheckInStats,
                                   userLocation: LatLng)

  /** What the servlet obtains from outside: parsers, remote answers, stored check-ins, CSV tables. */
  datatype Services = Services(
    parseDouble: string -> Option<real>,
    geocode: string -> Option<LatLng>,
    findStores: LatLng -> seq<Store>,
    censusArea: Store -> Option<County>,
    ratingsOf: string -> seq<Rating>,
    updatedPercentiles: Option<Table>,
    backupPercentiles: Option<Table>)

  /** A 400 response with its message, or the JSON result. */
  datatype Response = BadRequest(message: string) | Ok(stores: seq<StoreStats>, userLocation: LatLng)

  /** Where the parameter checks end: the user's location, or the message of the first failed check. */
  datatype Located = Located(address: string, userLocation: LatLng) | Rejected(message: string)

  const NoLocationParameter: string := "Failed to get the location parameter from the request."
  const BlankLocation: string := "Failed to get location, an address must be submitted."
  const NotLatLngFormat: string := "Location not provided in latitude, longitude format: "
  const InvalidLatLngTypes: string := "Invalid value types for latitude, longitude format: "
  const LocationNotFound: string := "Failed to find the location of: "
  const NoValidStores: string := "Failed to find any valid stores near the address: "

  // ---------------------------------------------------------------------------
  // Specification
  // ---------------------------------------------------------------------------

  /** The words of the trimmed address. */
  function AddressWords(address: string): seq<string> {
    SplitWhitespace(Trim(address))
  }

  /** The geocoding query of an address: its words joined with '+'. */
  function GeocodeQuery(address: string): string {
    Join(AddressWords(address), '+')
  }

  /** The parameter checks of a request, in the order the servlet makes them. */
  function LocateRequest(location: Option<string>, latlng: Option<string>, env: Services): Located {
    if location.None? then Rejected(NoLocationParameter)
    else
      var address := location.value;
      if Trim(address) == [] then Rejected(BlankLocation)
      else if ParseBoolean(latlng) then
        var parts := SplitComma(address);
        if |parts| != 2 then Rejected(NotLatLngFormat + address)
        else if env.parseDouble(parts[0]).None? || env.parseDouble(parts[1]).None? then
          Rejected(InvalidLatLngTypes + address)
        else Located(address, LatLng(env.parseDouble(parts[0]).value, env.parseDouble(parts[1]).value))
      else
        match env.geocode(GeocodeQuery(address))
        case Some(loc) => Located(address, loc)
        case None => Rejected(LocationNotFound + address)
  }

  /** The stores whose county lookup succeeds, in their original order. */
  function ResolvedStores(stores: seq<Store>, env: Services): seq<Store> {
    if stores == [] then []
    else
      var last := stores[|stores| - 1];
      ResolvedStores(stores[..|stores| - 1], env) + (if env.censusArea(last).Some? then [last] else [])
  }

  /** The indices of the stores whose county lookup succeeds. */
  function ResolvedIndices(stores: seq<Store>, env: Services): set<nat> {
    set i: nat | i < |stores| && env.censusArea(stores[i]).Some?
  }

  /** The score a resolved store's county gets from the percentile tables. */
  function ScoreOfStore(store: Store, env: Services): real
    requires env.censusArea(store).Some?
  {
    CountyScore(env.censusArea(store).value.countyFips, env.updatedPercentiles,
                env.backupPercentiles, env.parseDouble)
  }

  // ---------------------------------------------------------------------------
  // Properties of the specification
  // ---------------------------------------------------------------------------

  /** Every result is a store whose lookup succeeded, and there are as many as such stores. */
  lemma {:induction false} ResolvedCount(stores: seq<Store>, env: Services)
    ensures |ResolvedStores(stores, env)| == |ResolvedIndices(stores, env)|
    ensures forall s :: s in ResolvedStores(stores, env) ==> s in stores && env.censusArea(s).Some?
  {
    if stores != [] {
      var n := |stores| - 1;
      var init := stores[..n];
      ResolvedCount(init, env);
      assert forall i: nat :: i < n ==> init[i] == stores[i];
      if env.censusArea(stores[n]).Some? {
        assert ResolvedIndices(stores, env) == ResolvedIndices(init, env) + {n};
        assert n !in ResolvedIndices(init, env);
      } else {
        assert ResolvedIndices(stores, env) == ResolvedIndices(init, env);
      }
      assert forall s :: s in init ==> s in stores;
    }
  }

  /** A missing location parameter is reported first, whatever the other parameter says. */
  lemma MissingLocationFirst(latlng: Option<string>, env: Services)
    ensures LocateRequest(None, latlng, env) == Rejected(NoLocationParameter)
  {
  }

  /** A location of only blanks is rejected before anything else is looked at. */
  lemma BlankLocationRejected(address: string, latlng: Option<string>, env: Services)
    requires forall k :: 0 <= k < |address| ==> address[k] <= ' '
    ensures LocateRequest(Some(address), latlng, env) == Rejected(BlankLocation)
  {
  }

  lemma TwoSpacesRejected(env: Services)
    ensures LocateRequest(Some("  "), Some("  "), env) == Rejected("Failed to get location, an address must be submitted.")
  {
    BlankLocationRejected("  ", Some("  "), env);
  }

  /** In latitude-longitude mode, a comma split into other than two parts is rejected before any number is parsed. */
  lemma LatLngArityFirst(address: string, latlng: Option<string>, env: Services)
    requires Trim(address) != [] && ParseBoolean(latlng)
    requires |SplitComma(address)| != 2
    ensures LocateRequest(Some(address), latlng, env) == Rejected(NotLatLngFormat + address)
  {
  }

  /** Two parts of which one is not a number: the value-type error. */
  lemma LatLngNotNumbers(address: string, latlng: Option<string>, env: Services)
    requires Trim(address) != [] && ParseBoolean(latlng)
    requires |SplitComma(address)| == 2
    requires env.parseDouble(SplitComma(address)[0]).None? || env.parseDouble(SplitComma(address)[1]).None?
    ensures LocateRequest(Some(address), latlng, env) == Rejected(InvalidLatLngTypes + address)
  {
  }

  /** A non-blank address without a comma, such as "Philadelphia", is not a latitude-longitude pair. */
  lemma NoCommaNotLatLng(address: string, latlng: Option<string>, env: Services)
    requires !IsBlank(address) && ',' !in address
    requires ParseBoolean(latlng)
    ensures LocateRequest(Some(address), latlng, env) == Rejected(NotLatLngFormat + address)
  {
  }

  lemma PhiladelphiaIsNotLatLng(env: Services)
    ensures LocateRequest(Some("Philadelphia"), Some("true"), env)
         == Rejected("Location not provided in latitude, longitude format: Philadelphia")
  {
    assert !IsTrimmable("Philadelphia"[0]);
    NoCommaNotLatLng("Philadelphia", Some("true"), env);
    assert NotLatLngFormat + "Philadelphia" == "Location not provided in latitude, longitude format: Philadelphia";
  }

  /**
   * "a,b" in latitude-longitude mode, where one half is not a number: the
   * value-type error naming the whole input (the comma keeps it from being blank).
   */
  lemma CommaPairNotNumeric(a: string, b: string, latlng: Option<string>, env: Services)
    requires ',' !in a && ',' !in b && b != []
    requires ParseBoolean(latlng)
    requires env.parseDouble(a).None? || env.parseDouble(b).None?
    ensures LocateRequest(Some(a + [','] + b), latlng, env) == Rejected(InvalidLatLngTypes + (a + [','] + b))
  {
    var s := a + [','] + b;
    SplitAtOneComma(a, b);
    assert s[|a|] == ',';
    assert !IsBlank(s);
    LatLngNotNumbers(s, latlng, env);
  }

  /** A string with one comma and a nonempty part after it splits into those two parts. */
  lemma {:induction false} SplitAtOneComma(a: string, b: string)
    requires ',' !in a && ',' !in b && b != []
    ensures SplitComma(a + [','] + b) == [a, b]
  {
    var s := a + [','] + b;
    assert s[|a|] == ',';
    PiecesAppend(a, ',', b, {','});
    PiecesOfPlainString(a, {','});
    PiecesOfPlainString(b, {','});
    assert Pieces(s, {','}) == [a, b];
  }

  /** In address mode the geocoder sees the normalised query and nothing else. */
  lemma AddressModeUsesQuery(address: string, latlng: Option<string>, env: Services)
    requires Trim(address) != [] && !ParseBoolean(latlng)
    ensures LocateRequest(Some(address), latlng, env) ==
      if env.geocode(GeocodeQuery(address)).Some? then Located(address, env.geocode(GeocodeQuery(address)).value)
      else Rejected(LocationNotFound + address)
  {
  }

  /**
   * For an address that is not blank, the query is the words of the trimmed
   * address in order, joined with single '+': it holds no whitespace and, when
   * no word holds a '+', splits at '+' back into exactly those words.
   */
  lemma GeocodeQueryWords(address: string)
    requires Trim(address) != []
    ensures |AddressWords(address)| >= 1
    ensures forall w :: w in AddressWords(address) ==> w != []
    ensures forall k :: 0 <= k < |GeocodeQuery(address)| ==> GeocodeQuery(address)[k] !in Whitespace
    ensures (forall w, k :: w in AddressWords(address) && 0 <= k < |w| ==> w[k] != '+') ==>
      Pieces(GeocodeQuery(address), {'+'}) == AddressWords(address)
  {
    var words := AddressWords(address);
    WordsOfNonBlank(Trim(address));
    JoinAvoids(words, '+', Whitespace);
    if forall w, k :: w in words && 0 <= k < |w| ==> w[k] != '+' {
      SplitJoin(words, '+', {'+'});
    }
  }

  // ---------------------------------------------------------------------------
  // Implementation
  // ---------------------------------------------------------------------------

  /** Trims the address, splits it at whitespace runs and joins the words with '+'. */
  method BuildGeocodeQuery(address: string) returns (query: string)
    ensures query == GeocodeQuery(address)
    ensures Trim(address) == [] ==> query == []
    ensures forall k :: 0 <= k < |query| ==> query[k] !in Whitespace
  {
    var addressArray := SplitWhitespace(Trim(address));
    var addressWordCount := |addressArray|;
    QueryOfAddress(address);
    var addressStringBuilder := addressArray[0];
    var index := 1;
    assert addressArray[..1] == [addressArray[0]];
    while index < addressWordCount
      invariant 1 <= index <= addressWordCount
      invariant addressStringBuilder == Join(addressArray[..index], '+')
    {
      JoinSnoc(addressArray[..index], addressArray[index], '+');
      assert addressArray[..index] + [addressArray[index]] == addressArray[..index + 1];
      addressStringBuilder := addressStringBuilder + ['+'] + addressArray[index];
      index := index + 1;
    }
    assert addressArray[..index] == addressArray;
    query := addressStringBuilder;
  }

  /** The words of an address: at least one; a blank address has only the empty word; the query holds no whitespace. */
  lemma QueryOfAddress(address: string)
    ensures |AddressWords(address)| >= 1
    ensures Trim(address) == [] ==> AddressWords(address) == [[]] && GeocodeQuery(address) == []
    ensures forall k :: 0 <= k < |GeocodeQuery(address)| ==> GeocodeQuery(address)[k] !in Whitespace
  {
    if Trim(address) != [] {
      WordsOfNonBlank(Trim(address));
      JoinAvoids(AddressWords(address), '+', Whitespace);
    }
  }

  /** The fips-to-score cache and the collected results of one request. */
  class ScoreBoard {
    var countyScores: map<string, real>
    var storeStats: seq<StoreStats>

    constructor ()
      ensures countyScores == map[] && storeStats == []
    {
      countyScores := map[];
      storeStats := [];
    }
  }

  class Servlet {
    /** The user's location once a request has passed its checks. */
    var userLocation: LatLng

    constructor ()
      ensures userLocation == LatLng(0.0, 0.0)
    {
      userLocation := LatLng(0.0, 0.0);
    }

    /**
     * Scores one store: drops it when its county lookup failed; otherwise
     * computes its county's score only if the fips is not cached yet, and
     * appends one result carrying the cached score.
     */
    method AddStore(store: Store, board: ScoreBoard, env: Services)
      modifies board
      ensures env.censusArea(store).None? ==>
        board.countyScores == old(board.countyScores) && board.storeStats == old(board.storeStats)
      ensures env.censusArea(store).Some? ==>
        var fips := env.censusArea(store).value.countyFips;
        && fips in board.countyScores
        && (fips in old(board.countyScores) ==> board.countyScores == old(board.countyScores))
        && (fips !in old(board.countyScores) ==>
              board.countyScores == old(board.countyScores)[fips := ScoreOfStore(store, env)])
        && |board.storeStats| == |old(board.storeStats)| + 1
        && board.storeStats[..|old(board.storeStats)|] == old(board.storeStats)
        && var added := board.storeStats[|old(board.storeStats)|];
           && added.store == store
           && added.countyScore == board.countyScores[fips]
           && added.userLocation == userLocation
           && fresh(added.checkInStats)
           && added.checkInStats.Valid()
           && added.checkInStats.ratingEntities == env.ratingsOf(store.id)
    {
      var lookup := GetCounty(env.censusArea(store));
      if lookup.failed {
        return;
      }
      var county := lookup.county;
      if county.countyFips !in board.countyScores {
        var score := GetCountyScore(county, env.updatedPercentiles, env.backupPercentiles, env.parseDouble);
        board.countyScores := board.countyScores[county.countyFips := score];
      }
      var checkInStats := new CheckInStats(env.ratingsOf(store.id));
      board.storeStats := board.storeStats +
        [StoreStats(store, board.countyScores[county.countyFips], checkInStats, userLocation)];
    }

    /**
     * Scores the stores one after another into a fresh cache and result
     * collection: one result per store whose county lookup succeeded, in
     * order, each with its county's score and its own check-in stats.
     */
    method ScoreStores(stores: seq<Store>, env: Services) returns (results: seq<StoreStats>)
      ensures |results| == |ResolvedStores(stores, env)|
      ensures forall i :: 0 <= i < |results| ==>
        && results[i].store == ResolvedStores(stores, env)[i]
        && env.censusArea(results[i].store).Some?
        && results[i].countyScore == ScoreOfStore(results[i].store, env)
        && results[i].userLocation == userLocation
        && results[i].checkInStats.Valid()
        && results[i].checkInStats.ratingEntities == env.ratingsOf(results[i].store.id)
    {
      var board := new ScoreBoard();
      for i := 0 to |stores|
        invariant |board.storeStats| == |ResolvedStores(stores[..i], env)|
        invariant forall f :: f in board.countyScores ==>
          board.countyScores[f] == CountyScore(f, env.updatedPercentiles, env.backupPercentiles, env.parseDouble)
        invariant forall j :: 0 <= j < |board.storeStats| ==>
          && board.storeStats[j].store == ResolvedStores(stores[..i], env)[j]
          && env.censusArea(board.storeStats[j].store).Some?
          && board.storeStats[j].countyScore == ScoreOfStore(board.storeStats[j].store, env)
          && board.storeStats[j].userLocation == userLocation
          && board.storeStats[j].checkInStats.Valid()
          && board.storeStats[j].checkInStats.ratingEntities == env.ratingsOf(board.storeStats[j].store.id)
      {
        assert stores[..i + 1][..i] == stores[..i];
        AddStore(stores[i], board, env);
      }
      assert stores[..|stores|] == stores;
      results := board.storeStats;
    }

    /** Geocodes the normalised address; on success the user's location is the answer. */
    method GetLatLngFromAddress(address: string, env: Services) returns (success: bool)
      modifies this
      ensures success <==> env.geocode(GeocodeQuery(address)).Some?
      ensures success ==> userLocation == env.geocode(GeocodeQuery(address)).value
      ensures !success ==> userLocation == old(userLocation)
    {
      var query := BuildGeocodeQuery(address);
      var answer := env.geocode(query);
      if answer.None? {
        return false;
      }
      userLocation := answer.value;
      return true;
    }

    /**
     * Answers a request: the parameter checks in order, then the scoring of
     * the stores found around the user, and an error when none is left.
     */
    method DoGet(location: Option<string>, latlng: Option<string>, env: Services) returns (response: Response)
      modifies this
      ensures LocateRequest(location, latlng, env).Rejected? ==>
        response == BadRequest(LocateRequest(location, latlng, env).message)
        && userLocation == old(userLocation)
      ensures LocateRequest(location, latlng, env).Located? ==>
        var located := LocateRequest(location, latlng, env);
        var found := ResolvedStores(env.findStores(located.userLocation), env);
        && userLocation == located.userLocation
        && (found == [] ==> response == BadRequest(NoValidStores + located.address))
        && (found != [] ==> response.Ok? && response.userLocation == located.userLocation
                            && |response.stores| == |found|
                            && forall i :: 0 <= i < |found| ==>
                                 response.stores[i].store == found[i]
                                 && env.censusArea(found[i]).Some?
                                 && response.stores[i].countyScore == ScoreOfStore(found[i], env)
                                 && response.stores[i].userLocation == located.userLocation
                                 && response.stores[i].checkInStats.Valid()
                                 && response.stores[i].checkInStats.ratingEntities == env.ratingsOf(found[i].id))
    {
      if location.None? {
        return BadRequest(NoLocationParameter);
      }
      var address := location.value;
      if Trim(address) == [] {
        return BadRequest(BlankLocation);
      }
      if ParseBoolean(latlng) {
        var latLngArray := SplitComma(address);
        if |latLngArray| != 2 {
          return BadRequest(NotLatLngFormat + address);
        }
        var latitude := env.parseDouble(latLngArray[0]);
        if latitude.None? {
          return BadRequest(InvalidLatLngTypes + address);
        }
        var longitude := env.parseDouble(latLngArray[1]);
        if longitude.None? {
          return BadRequest(InvalidLatLngTypes + address);
        }
        userLocation := LatLng(latitude.value, longitude.value);
      } else {
        var success := GetLatLngFromAddress(address, env);
        if !success {
          return BadRequest(LocationNotFound + address);
        }
      }
      var stores := env.findStores(userLocation);
      var storeStats := ScoreStores(stores, env);
      if |storeStats| == 0 {
        return BadRequest(NoValidStores + address);
      }
      return Ok(storeStats, userLocation);
    }
  }
}
