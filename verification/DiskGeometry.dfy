/** The size and shape of the simulated disk. */
module DiskGeometry {

  const SECTOR_SIZE: nat := 128
  const SECTORS_PER_TRACK: nat := 32
  const NUM_TRACKS: nat := 32
  const NUM_SECTORS: nat := SECTORS_PER_TRACK * NUM_TRACKS
}
