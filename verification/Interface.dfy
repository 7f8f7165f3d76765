/** The status every driver and interface call answers with. */
module Interface {
  datatype Status = Ok | Error | Busy | Timeout
}
