/** The result codes of the GRIB API that its language interfaces pass on. */
module GribErrors {
  const GRIB_SUCCESS := 0
  const GRIB_ARRAY_TOO_SMALL := -6
  const GRIB_INVALID_FILE := -27
  const GRIB_INVALID_GRIB := -28
}
