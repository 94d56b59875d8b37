/** The proxy's connections and their states. */
module ProxyConnection {

  datatype ConnectionStatus =
    | GettingRequest | ConnectingToServer | WritingRequest | ForwardingRequest
    | ForwardingResponse | RespondingFromCache | NotActive | WaitingDataOnCache

  datatype CacheStatus = Downloading | Valid | Invalid

  // A connection as a record in its thread's table, where records are copied whole.
  datatype Slot = Slot(
    clientSocket: int, serverSocket: int, status: ConnectionStatus,
    buffer: string, cacheIndex: int, cacheBytesWritten: nat, id: int)

  // A connection as the operations on its buffer and the cache search change it through a pointer.
  class Connection {
    var status: ConnectionStatus
    var buffer: array<char>
    var bufferSize: nat
    var cacheIndex: int
    var cacheBytesWritten: nat

    ghost predicate Valid()
      reads this
    {
      bufferSize <= buffer.Length
    }

    ghost function Content(): string
      reads this, buffer
      requires Valid()
    {
      buffer[..bufferSize]
    }

    /** A connection just accepted. */
    constructor ()
      ensures Valid() && fresh(buffer) && Content() == ""
      ensures status == GettingRequest && cacheIndex == -1
    {
      status := GettingRequest;
      buffer := new char[0];
      bufferSize := 0;
      cacheIndex := -1;
      cacheBytesWritten := 0;
    }

    /** Received bytes are added by growing the allocation to the exact new size. */
    method Append(chunk: seq<char>)
      requires Valid()
      modifies this`buffer, this`bufferSize
      ensures Valid() && fresh(buffer) && bufferSize == buffer.Length
      ensures Content() == old(Content()) + chunk
    {
      var grown := new char[bufferSize + |chunk|];
      forall k | 0 <= k < bufferSize { grown[k] := buffer[k]; }
      forall k | 0 <= k < |chunk| { grown[bufferSize + k] := chunk[k]; }
      buffer := grown;
      bufferSize := grown.Length;
    }

    method FreeBuffer()
      modifies this`buffer, this`bufferSize
      ensures Valid() && fresh(buffer) && Content() == ""
    {
      buffer := new char[0];
      bufferSize := 0;
    }
  }
}
