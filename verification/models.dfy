/** The sampling items that the scheduler shares with the scrapers and the samplers. */
module Models {

  /** The zero value of the program's time type: the start of year 1, in nanoseconds from the Unix epoch. */
  const ZERO_TIME: int := -62135596800_000_000_000

  class SamplingItem {
    const key: string
    const blockLink: nat
    const dasRow: nat
    const dasColumn: nat
    const timestamp: int
    const sampleUntil: int
    var nextVisit: int

    constructor (key: string, blockLink: nat, dasRow: nat, dasColumn: nat, timestamp: int, sampleUntil: int)
      ensures this.key == key && this.blockLink == blockLink
      ensures this.dasRow == dasRow && this.dasColumn == dasColumn
      ensures this.timestamp == timestamp && this.sampleUntil == sampleUntil
      ensures nextVisit == ZERO_TIME
    {
      this.key := key;
      this.blockLink := blockLink;
      this.dasRow := dasRow;
      this.dasColumn := dasColumn;
      this.timestamp := timestamp;
      this.sampleUntil := sampleUntil;
      this.nextVisit := ZERO_TIME;
    }

    predicate IsReadyForNextPing(now: int)
      reads this
    {
      nextVisit != ZERO_TIME && now > nextVisit
    }
  }
}
