/** The LINE official-account id as it is put into the chat link. */
module LineId {

  /** `formattedLineId`: the id with a leading "@", added only when missing. */
  function FormattedLineId(id: string): (r: string)
    ensures |r| > 0 && r[0] == '@'
    ensures r == id || r == "@" + id
    ensures r == id <==> |id| > 0 && id[0] == '@'
  {
    if |id| > 0 && id[0] == '@' then id else "@" + id
  }

  lemma FormattedLineIdIdempotent(id: string)
    ensures FormattedLineId(FormattedLineId(id)) == FormattedLineId(id)
  {
  }
}
