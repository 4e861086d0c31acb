/** A job as the client hands it to its caller (Job.java). */
module Jobs {
  import opened JavaNumbers
  import opened JavaStrings

  /**
   * A job: the id the server assigned and the payload bytes. The constructor
   * takes any id and any payload; there is nothing that changes either later.
   */
  datatype Job = Job(id: int64, data: seq<byte>)
  {
    /** getId() */
    function GetId(): int64 { id }

    /** getData() */
    function GetData(): seq<byte> { data }
  }

  /**
   * The getters return exactly what the constructor was given, for every id
   * and payload, and two jobs are the same value exactly when both agree.
   */
  lemma JobAccessors(id: int64, data: seq<byte>, other: Job)
    ensures Job(id, data).GetId() == id
    ensures Job(id, data).GetData() == data
    ensures other == Job(id, data) <==> other.GetId() == id && other.GetData() == data
  {
  }
}
