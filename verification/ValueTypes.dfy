// The value types of the meter: four archives and the two current readings.

module ValueTypes {
  const HOURLY := 0
  const DAILY := 1
  const MONTHLY := 2
  const TOTAL := 3
  const CURRENT := 4
  const CURRENT_TOTAL := 5
}
