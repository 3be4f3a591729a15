/** The persisted entities and the view model of the matching application. */
module Models {

  /** A session identifier: an opaque 128-bit GUID, only ever compared for equality. */
  newtype Guid = x: int | 0 <= x < 0x1_0000_0000_0000_0000_0000_0000_0000_0000

  /** A text record to be matched; its id is assigned by the store. */
  datatype Description = Description(id: int, content: string)

  /** One judgment of a session on a pair of records (the creation timestamp is not modelled). */
  datatype Evaluation = Evaluation(
    id: int,
    sessionId: Guid,
    description1Id: int,
    description2Id: int,
    isMatch: bool)

  /** The pair shown to the user, with the session's progress counters. */
  datatype MatchingPair = MatchingPair(
    description1: Description,
    description2: Description,
    currentPairIndex: int,
    totalPairs: int,
    sessionId: Guid)
}
