/** src/fcgi/server_connection.cpp: what a connection knows besides its three streams. */
module BaseConnection {
  import opened Basics
  import opened Records
  import opened NamesValues
  import opened Transport

  class ServerConnection {
    const io: Descriptor
    const role: Role
    const requestId: nat
    const isKeepConnection: bool
    var applicationStatus: int
    var parameters: seq<Pair>

    constructor (io: Descriptor, role: Role, requestId: nat, isKeepConnection: bool)
      ensures this.io == io && this.role == role && this.requestId == requestId
      ensures this.isKeepConnection == isKeepConnection && applicationStatus == 0 && parameters == []
    {
      this.io, this.role, this.requestId := io, role, requestId;
      this.isKeepConnection := isKeepConnection;
      applicationStatus, parameters := 0, [];
    }

    /** The value of the first parameter of that name; none is an exception in the source. */
    function Parameter(name: seq<byte>): (r: Option<seq<byte>>)
      reads this`parameters
      ensures r.None? <==> forall i :: 0 <= i < |parameters| ==> parameters[i].name != name
      ensures r.Some? ==> exists i :: 0 <= i < |parameters| && parameters[i] == Pair(name, r.value)
                                      && forall j :: 0 <= j < i ==> parameters[j].name != name
    {
      match PairIndex(parameters, name)
      case None => None
      case Some(i) =>
        assert parameters[i] == Pair(name, parameters[i].value);
        Some(parameters[i].value)
    }
  }
}
