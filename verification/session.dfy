/** The connection bookkeeping both hooks keep in React state: the port list, the selected port,
    whether a connection is open, the last error message, the baud rate and the stream reader.

    The browser's Web Serial calls are not modelled; each becomes a parameter saying how it
    turned out: whether `navigator.serial` exists, what `getPorts`/`requestPort`/`open`
    resolved to or the error they rejected with, and the handle of the new reader. A reader is
    identified by a number. */
module Session {
  import opened Wrappers
  import opened PortList

  /** How an awaited browser call settled: resolved with a value, or rejected with an error
      whose `name` and `message` the hooks read. */
  datatype Outcome<T> = Resolved(value: T) | Rejected(name: string, message: string)

  const DefaultBaudRate: int := 9600

  const NotSupportedToList: string := "Web Serial API is not supported in this browser"
  const ListFailed: string := "Failed to list serial ports"
  const NotSupportedToRequest: string := "Web Serial API is not supported"
  const NoPortChosen: string := "No compatible serial port selected"
  const RequestFailed: string := "Failed to access serial port"
  const NoPortSelected: string := "No port selected"
  const ConnectFailedPrefix: string := "Failed to connect: "
  const ReadFailedMessage: string := "Failed to read from port."

  /** The rate `connect` opens the port with: the requested rate, or 9600 when the requested
      rate is 0 (the only falsy number the parsed rate can be here). */
  function OpenRate(requested: int): (rate: int)
    ensures rate != 0
    ensures requested != 0 ==> rate == requested
    ensures requested == 0 ==> rate == DefaultBaudRate
  {
    if requested != 0 then requested else DefaultBaudRate
  }

  /** The message `requestPort` shows when the picker rejects: the user closing the picker
      (`NotFoundError`) is told apart from every other failure. */
  function RequestErrorMessage(name: string): (msg: string)
    ensures msg == NoPortChosen <==> name == "NotFoundError"
    ensures msg == RequestFailed <==> name != "NotFoundError"
  {
    if name == "NotFoundError" then NoPortChosen else RequestFailed
  }

  /** The hook's connection state. */
  class SerialSession {
    var ports: seq<Port>
    var selectedPort: Option<Port>
    var isConnected: bool
    var error: Option<string>
    var baudRate: int
    var reader: Option<nat>

    /** The state invariant every method keeps: a connection is open exactly when there is a
        reader to read it (`connect` sets both, `disconnect` clears both). The contracts below
        state each new field outright, so none of them relies on it beyond keeping it. */
    ghost predicate Valid()
      reads this
    {
      isConnected <==> reader.Some?
    }

    /** The initial state of the hook. */
    constructor ()
      ensures Valid()
      ensures ports == [] && selectedPort == None && !isConnected && error == None
      ensures baudRate == DefaultBaudRate && reader == None
    {
      ports := [];
      selectedPort := None;
      isConnected := false;
      error := None;
      baudRate := DefaultBaudRate;
      reader := None;
    }

    /** `listPorts`: the granted ports, filtered, replace the list; a missing API or a failed
        `getPorts` only sets the error. */
    method ListPorts(supported: bool, granted: Outcome<seq<Port>>)
      requires Valid()
      modifies this
      ensures Valid()
      ensures !supported ==> error == Some(NotSupportedToList) && ports == old(ports)
      ensures supported && granted.Resolved? ==>
                ports == ListedPorts(granted.value) && error == old(error)
      ensures supported && granted.Rejected? ==> error == Some(ListFailed) && ports == old(ports)
      ensures selectedPort == old(selectedPort) && isConnected == old(isConnected)
      ensures baudRate == old(baudRate) && reader == old(reader)
    {
      if !supported {
        error := Some(NotSupportedToList);
        return;
      }
      match granted
      case Resolved(available) =>
        ports := ListedPorts(available);
      case Rejected(_, _) =>
        error := Some(ListFailed);
    }

    /** `requestPort`: the error is cleared first; a chosen port is moved to the end of the list
        and selected; a rejected picker sets the matching message. */
    method RequestPort(supported: bool, picked: Outcome<Port>)
      requires Valid()
      modifies this
      ensures Valid()
      ensures !supported ==> error == Some(NotSupportedToRequest)
      ensures supported && picked.Resolved? ==>
                ports == WithRequested(old(ports), picked.value)
                && selectedPort == Some(picked.value) && error == None
      ensures supported && picked.Rejected? ==>
                error == Some(RequestErrorMessage(picked.name))
      ensures !(supported && picked.Resolved?) ==>
                ports == old(ports) && selectedPort == old(selectedPort)
      ensures isConnected == old(isConnected) && baudRate == old(baudRate) && reader == old(reader)
    {
      error := None;
      if !supported {
        error := Some(NotSupportedToRequest);
        return;
      }
      match picked
      case Resolved(p) =>
        ports := WithRequested(ports, p);
        selectedPort := Some(p);
      case Rejected(name, _) =>
        error := Some(RequestErrorMessage(name));
    }

    /** `selectPort`, the state setter handed to the interface as is. */
    method SelectPort(p: Option<Port>)
      requires Valid()
      modifies this
      ensures Valid()
      ensures selectedPort == p
      ensures ports == old(ports) && isConnected == old(isConnected) && error == old(error)
      ensures baudRate == old(baudRate) && reader == old(reader)
    {
      selectedPort := p;
    }

    /** `connect`: without a selected port only the error is set. Otherwise the port is opened
        at `OpenRate(selectedBaudRate)`, returned as `openedAt`; on success the requested rate is
        stored, the connection is marked open, the error cleared and the new reader kept; on
        failure the error carries the browser's message. */
    method Connect(selectedBaudRate: int, openResult: Outcome<()>, newReader: nat)
      returns (openedAt: Option<int>)
      requires Valid()
      modifies this
      ensures Valid()
      ensures selectedPort == None ==>
                openedAt == None && error == Some(NoPortSelected)
                && isConnected == old(isConnected) && reader == old(reader)
                && baudRate == old(baudRate)
      ensures selectedPort != None ==> openedAt == Some(OpenRate(selectedBaudRate))
      ensures selectedPort != None && openResult.Resolved? ==>
                baudRate == selectedBaudRate && isConnected && error == None
                && reader == Some(newReader)
      ensures selectedPort != None && openResult.Rejected? ==>
                error == Some(ConnectFailedPrefix + openResult.message)
                && isConnected == old(isConnected) && reader == old(reader)
                && baudRate == old(baudRate)
      ensures ports == old(ports) && selectedPort == old(selectedPort)
    {
      if selectedPort == None {
        error := Some(NoPortSelected);
        return None;
      }
      openedAt := Some(OpenRate(selectedBaudRate));
      match openResult
      case Resolved(_) =>
        baudRate := selectedBaudRate;
        isConnected := true;
        error := None;
        reader := Some(newReader);
      case Rejected(_, message) =>
        error := Some(ConnectFailedPrefix + message);
    }

    /** `disconnect`: the reader is cancelled and dropped and the port closed when it has a
        readable stream; a failing cancel or close (`cancelFails`, `closeFails`) is only
        logged, so the outcome is the same either way. Whatever happened, the
        connection ends marked closed with no reader and no error. `closed` says whether the
        port's `close` was called. */
    method Disconnect(cancelFails: bool, readable: bool, closeFails: bool)
      returns (closed: bool)
      requires Valid()
      modifies this
      ensures Valid()
      ensures reader == None && !isConnected && error == None
      ensures closed <==> selectedPort.Some? && readable
      ensures ports == old(ports) && selectedPort == old(selectedPort) && baudRate == old(baudRate)
    {
      if reader.Some? {
        if cancelFails {
          // `reader.cancel()` rejected: the `catch` only logs a warning.
        }
        // `finally` drops the reader whichever way `cancel` settled.
        reader := None;
      }
      closed := selectedPort.Some? && readable;
      if closed && closeFails {
        // `selectedPort.close()` rejected: the `catch` only logs a warning.
      }
      isConnected := false;
      error := None;
    }

    /** The read loop's `catch` as written: the failure message is set and `disconnect` is
        called, whose last step clears the error again. */
    method ReadFailed(cancelFails: bool, readable: bool, closeFails: bool)
      requires Valid()
      modifies this
      ensures Valid()
      ensures reader == None && !isConnected
      ensures error == None
      ensures ports == old(ports) && selectedPort == old(selectedPort) && baudRate == old(baudRate)
    {
      error := Some(ReadFailedMessage);
      var _ := Disconnect(cancelFails, readable, closeFails);
    }

    /** The read loop's `catch` as evidently intended: the connection is torn down and the
        failure stays reported. */
    method ReadFailedReported(cancelFails: bool, readable: bool, closeFails: bool)
      requires Valid()
      modifies this
      ensures Valid()
      ensures reader == None && !isConnected
      ensures error == Some(ReadFailedMessage)
      ensures ports == old(ports) && selectedPort == old(selectedPort) && baudRate == old(baudRate)
    {
      var _ := Disconnect(cancelFails, readable, closeFails);
      error := Some(ReadFailedMessage);
    }
  }

  /** A session that connected and then lost its reader, as the source handles it: the user is
      left disconnected with no error message. */
  method ReadFailureAsWritten(p: Port, rate: int, handle: nat) returns (shown: Option<string>)
    ensures shown == None
  {
    var s := new SerialSession();
    s.SelectPort(Some(p));
    var _ := s.Connect(rate, Resolved(()), handle);
    s.ReadFailed(false, true, false);
    shown := s.error;
  }

  /** The same session with the corrected `catch`: the failure is what the user sees. */
  method ReadFailureReported(p: Port, rate: int, handle: nat) returns (shown: Option<string>)
    ensures shown == Some(ReadFailedMessage)
  {
    var s := new SerialSession();
    s.SelectPort(Some(p));
    var _ := s.Connect(rate, Resolved(()), handle);
    s.ReadFailedReported(false, true, false);
    shown := s.error;
  }
}
