/** The lifecycle state in a brain's manifest (internal/brain/manifest.go). */
module BrainStatus {
  datatype Status = Alive | ShuttingDown | Dead
}
