/** Helpers shared by the renderers: the map's initial centre. */
module MapComponentUtils {
  import opened Wrappers

  /** Cape Town, the centre used when the form leaves one unset. */
  const DefaultLatitude: real := -33.9249
  const DefaultLongitude: real := 18.4241

  /** `getViewportCoordinates`: `[latitude ?? default, longitude ?? default]`.
      Only a missing value is replaced; a supplied 0 is kept. */
  function ViewportCoordinates(latitude: Option<real>, longitude: Option<real>): (r: seq<real>)
    ensures |r| == 2
    ensures latitude.None? ==> r[0] == DefaultLatitude
    ensures latitude.Some? ==> r[0] == latitude.value
    ensures longitude.None? ==> r[1] == DefaultLongitude
    ensures longitude.Some? ==> r[1] == longitude.value
  {
    [latitude.GetOr(DefaultLatitude), longitude.GetOr(DefaultLongitude)]
  }

  /** Each coordinate is defaulted on its own: the latitude does not depend
      on the longitude supplied, nor the longitude on the latitude. */
  lemma CoordinatesIndependent(lat1: Option<real>, lat2: Option<real>, lng1: Option<real>, lng2: Option<real>)
    ensures ViewportCoordinates(lat1, lng1)[0] == ViewportCoordinates(lat1, lng2)[0]
    ensures ViewportCoordinates(lat1, lng1)[1] == ViewportCoordinates(lat2, lng1)[1]
  {
  }

  /** A zero coordinate is a value, not a missing one. */
  lemma ZeroIsKept(longitude: Option<real>)
    ensures ViewportCoordinates(Some(0.0), longitude)[0] == 0.0
    ensures ViewportCoordinates(longitude, Some(0.0))[1] == 0.0
  {
  }
}
