/** The station record of the catalog (the `Station` named tuple built in
    `build_stations`) and the elevation line of the station-information dialog. */
module Catalog {
  import opened Wrappers

  /** The elevation the catalog records for a station whose elevation is unknown. */
  const UnknownElevation: real := -999.0

  /** One catalog row. Coordinates, elevation (metres) and archive size (KB)
      are floating-point numbers in the catalog; `state` and `wmoId` may be null. */
  datatype Station = Station(
    id: string,
    latitude: real,
    longitude: real,
    elevation: real,
    state: Option<string>,
    name: string,
    gsn: bool,
    hcnCrn: bool,
    wmoId: Option<int>,
    country: string,
    size: real,
    prcpStart: int, prcpEnd: int,
    snowStart: int, snowEnd: int,
    snwdStart: int, snwdEnd: int,
    tmaxStart: int, tmaxEnd: int,
    tminStart: int, tminEnd: int,
    isAvailable: bool)

  /** The "Elevation:" line of the station-information dialog. `metres` and
      `feet` are the printed forms of the elevation and of its conversion to
      feet; the line reads "N/A" exactly when the elevation is the unknown
      sentinel or below it. */
  function ElevationLine(elevation: real, metres: string, feet: string): (line: string)
    ensures line == "Elevation: N/A" <==> elevation <= UnknownElevation
    ensures elevation > UnknownElevation ==>
      |line| > 11 + |metres| && line[..11] == "Elevation: " && line[11..11 + |metres|] == metres
  {
    "Elevation: " + (if elevation > -999.0 then metres + "m (" + feet + "ft)" else "N/A")
  }
}
