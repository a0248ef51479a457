/** Error classification: src/scheduler-job/scheduler-job.base.ts:162-232 and
    src/common/exceptions/exception.constant.ts. */
module ErrorClasses {
  import opened Arrays

  datatype Level = Normal | Fatal

  /** The names of the codes a scheduler exception can carry; ERR003 is the first one with an empty message. */
  datatype Code = ERR003 | ERR1001 | ERR1002 | ERR1003 | ERR1005 | ERR1007 | ERR1008 | ERR1009 | ERR1010

  datatype Exception = Exception(message: string, code: Code, level: Level)

  const MISSING_RESPONSE := "missing response"
  const ETIMEDOUT := "ETIMEDOUT"
  const NO_NETWORK := "could not detect network"
  const RPC_ERROR := "Expected rpc error"
  const TOO_MANY_REQUESTS := "Too Many Requests"
  const PROCESSING_ERROR := "processing response error"
  const TOO_MANY_CONNECTIONS := "Too many connections"
  const MISSING_REVERT := "missing r" + REVERT_TAIL // "missing revert data in call exception"
  const REVERT_TAIL := "evert data in call exception"
  const UNKNOWN := "Unknown exception"

  /** `message.match(text)`: the texts hold no character with a meaning in a pattern. */
  predicate Matches(message: string, text: string) {
    text <= message || (message != [] && Matches(message[1..], text))
  }

  /** The exception `errorHandler` throws for an error; None is an error without message. A network that could
      not be detected is reported under the empty message of ERR004. */
  function Classify(message: Option<string>): Exception {
    if message.None? then Exception(UNKNOWN, ERR1001, Fatal)
    else
      var m := message.value;
      if Matches(m, MISSING_RESPONSE) then Exception(MISSING_RESPONSE, ERR1002, Normal)
      else if Matches(m, ETIMEDOUT) then Exception(ETIMEDOUT, ERR1003, Normal)
      else if Matches(m, NO_NETWORK) then Exception("", ERR003, Normal)
      else if Matches(m, RPC_ERROR) then Exception(RPC_ERROR, ERR1005, Normal)
      else if Matches(m, TOO_MANY_REQUESTS) then Exception(TOO_MANY_REQUESTS, ERR1009, Normal)
      else if Matches(m, PROCESSING_ERROR) then Exception(PROCESSING_ERROR, ERR1010, Normal)
      else if Matches(m, TOO_MANY_CONNECTIONS) then Exception(TOO_MANY_CONNECTIONS, ERR1008, Fatal)
      else if Matches(m, MISSING_REVERT) then Exception(MISSING_REVERT, ERR1007, Fatal)
      else Exception(UNKNOWN, ERR1001, Fatal)
  }

  predicate Starts(message: string, text: string, i: nat) {
    i + |text| <= |message| && message[i..i + |text|] == text
  }

  /** Matching means that the text occurs somewhere. */
  lemma {:induction false} MatchesMeansOccurs(message: string, text: string)
    ensures Matches(message, text) <==> exists i: nat :: Starts(message, text, i)
  {
    if text <= message {
      assert Starts(message, text, 0);
    } else if message != [] {
      MatchesMeansOccurs(message[1..], text);
      if i: nat :| Starts(message[1..], text, i) {
        StartsEarlier(message, text, i);
      }
      if i: nat :| Starts(message, text, i) {
        StartsLater(message, text, i);
      }
      hide Starts;
    }
  }

  lemma StartsEarlier(message: string, text: string, i: nat)
    requires message != [] && Starts(message[1..], text, i)
    ensures Starts(message, text, i + 1)
  {
    assert message[i + 1..i + 1 + |text|] == message[1..][i..i + |text|];
  }

  lemma StartsLater(message: string, text: string, i: nat)
    requires Starts(message, text, i) && !(text <= message)
    ensures i > 0 && Starts(message[1..], text, i - 1)
  {
    if i > 0 {
      var there, later := message[i..i + |text|], message[1..][i - 1..i - 1 + |text|];
      assert |there| == |later| && forall j :: 0 <= j < |text| ==> there[j] == later[j];
    }
  }

  /** A message that lacks a character of the text, or is shorter, does not match. */
  lemma {:induction false} CannotMatch(message: string, text: string, k: nat, c: char)
    requires k < |text| && text[k] == c && (c !in message || |message| < |text|)
    ensures !Matches(message, text)
  {
    if text <= message {
      HasCharacter(message, text, k);
      assert false;
    } else if message != [] {
      assert forall d :: d in message[1..] ==> d in message;
      CannotMatch(message[1..], text, k, c);
    }
  }

  lemma HasCharacter(message: string, text: string, k: nat)
    requires text <= message && k < |text|
    ensures text[k] in message && |text| <= |message|
  {
    assert message[k] == text[k];
  }

  /** A text does not match if its k-th character does not occur from position k on. */
  lemma CannotStart(message: string, text: string, k: nat, c: char)
    requires k < |text| && text[k] == c && k <= |message| && c !in message[k..]
    ensures !Matches(message, text)
  {
    MatchesMeansOccurs(message, text);
    if i: nat :| Starts(message, text, i) {
      StartHasCharacter(message, text, k, i);
      assert false;
    }
  }

  lemma StartHasCharacter(message: string, text: string, k: nat, i: nat)
    requires Starts(message, text, i) && k < |text|
    ensures k <= |message| && text[k] in message[k..]
  {
    assert message[i..i + |text|][k] == message[k..][i];
  }

  lemma MatchesItself(m: string)
    ensures Matches(m, m)
  {
  }

  lemma MissingResponseIsItself()
    ensures Classify(Some(MISSING_RESPONSE)) == Exception(MISSING_RESPONSE, ERR1002, Normal)
  {
    hide Matches;
    MatchesItself(MISSING_RESPONSE);
  }

  lemma TimeoutIsItself()
    ensures Classify(Some(ETIMEDOUT)) == Exception(ETIMEDOUT, ERR1003, Normal)
  {
    hide Matches;
    CannotMatch(ETIMEDOUT, MISSING_RESPONSE, 0, 'm');
    MatchesItself(ETIMEDOUT);
  }

  lemma RpcErrorIsItself()
    ensures Classify(Some(RPC_ERROR)) == Exception(RPC_ERROR, ERR1005, Normal)
  {
    hide Matches;
    CannotMatch(RPC_ERROR, MISSING_RESPONSE, 0, 'm');
    CannotMatch(RPC_ERROR, ETIMEDOUT, 1, 'T');
    CannotMatch(RPC_ERROR, NO_NETWORK, 0, 'c');
    MatchesItself(RPC_ERROR);
  }

  lemma TooManyRequestsIsItself()
    ensures Classify(Some(TOO_MANY_REQUESTS)) == Exception(TOO_MANY_REQUESTS, ERR1009, Normal)
  {
    hide Matches;
    CannotMatch(TOO_MANY_REQUESTS, MISSING_RESPONSE, 1, 'i');
    CannotMatch(TOO_MANY_REQUESTS, ETIMEDOUT, 0, 'E');
    CannotMatch(TOO_MANY_REQUESTS, NO_NETWORK, 0, 'c');
    CannotMatch(TOO_MANY_REQUESTS, RPC_ERROR, 0, 'E');
    MatchesItself(TOO_MANY_REQUESTS);
  }

  lemma ProcessingErrorIsItself()
    ensures Classify(Some(PROCESSING_ERROR)) == Exception(PROCESSING_ERROR, ERR1010, Normal)
  {
    hide Matches;
    CannotMatch(PROCESSING_ERROR, MISSING_RESPONSE, 0, 'm');
    CannotMatch(PROCESSING_ERROR, ETIMEDOUT, 0, 'E');
    CannotMatch(PROCESSING_ERROR, NO_NETWORK, 2, 'u');
    CannotMatch(PROCESSING_ERROR, RPC_ERROR, 0, 'E');
    CannotMatch(PROCESSING_ERROR, TOO_MANY_REQUESTS, 0, 'T');
    MatchesItself(PROCESSING_ERROR);
  }

  lemma TooManyConnectionsIsItself()
    ensures Classify(Some(TOO_MANY_CONNECTIONS)) == Exception(TOO_MANY_CONNECTIONS, ERR1008, Fatal)
  {
    hide Matches;
    CannotMatch(TOO_MANY_CONNECTIONS, MISSING_RESPONSE, 8, 'r');
    CannotMatch(TOO_MANY_CONNECTIONS, ETIMEDOUT, 0, 'E');
    CannotMatch(TOO_MANY_CONNECTIONS, NO_NETWORK, 2, 'u');
    CannotMatch(TOO_MANY_CONNECTIONS, RPC_ERROR, 0, 'E');
    CannotMatch(TOO_MANY_CONNECTIONS, TOO_MANY_REQUESTS, 4, 'M');
    CannotMatch(TOO_MANY_CONNECTIONS, PROCESSING_ERROR, 0, 'p');
    MatchesItself(TOO_MANY_CONNECTIONS);
  }

  lemma UnknownIsItself()
    ensures Classify(Some(UNKNOWN)) == Exception(UNKNOWN, ERR1001, Fatal)
  {
    hide Matches;
    CannotMatch(UNKNOWN, MISSING_RESPONSE, 0, 'm');
    CannotMatch(UNKNOWN, ETIMEDOUT, 0, 'E');
    CannotMatch(UNKNOWN, NO_NETWORK, 4, 'd');
    CannotMatch(UNKNOWN, RPC_ERROR, 0, 'E');
    CannotMatch(UNKNOWN, TOO_MANY_REQUESTS, 0, 'T');
    CannotMatch(UNKNOWN, PROCESSING_ERROR, 1, 'r');
    CannotMatch(UNKNOWN, TOO_MANY_CONNECTIONS, 0, 'T');
    CannotMatch(UNKNOWN, MISSING_REVERT, 0, 'm');
  }

  lemma MissingRevertTail()
    ensures |MISSING_REVERT| == 37 && MISSING_REVERT[9..] == REVERT_TAIL
  {
  }

  lemma RevertTailLacks()
    ensures 's' !in REVERT_TAIL && 'g' !in REVERT_TAIL
  {
  }

  lemma MissingRevertIsNoResponse()
    ensures !Matches(MISSING_REVERT, MISSING_RESPONSE)
  {
    hide Matches;
    MissingRevertTail();
    RevertTailLacks();
    LaterTail(MISSING_REVERT, 9, 10, 's');
    CannotStart(MISSING_REVERT, MISSING_RESPONSE, 10, 's');
  }

  lemma MissingRevertIsNoProcessingError()
    ensures !Matches(MISSING_REVERT, PROCESSING_ERROR)
  {
    hide Matches;
    MissingRevertTail();
    RevertTailLacks();
    CannotStart(MISSING_REVERT, PROCESSING_ERROR, 9, 'g');
  }

  lemma LaterTail(message: string, j: nat, k: nat, c: char)
    requires j <= k <= |message| && c !in message[j..]
    ensures c !in message[k..]
  {
    assert message[k..] == message[j..][k - j..];
  }

  lemma MissingRevertLacks()
    ensures !Matches(MISSING_REVERT, ETIMEDOUT)
    ensures !Matches(MISSING_REVERT, NO_NETWORK)
    ensures !Matches(MISSING_REVERT, RPC_ERROR)
  {
    hide Matches;
    CannotMatch(MISSING_REVERT, ETIMEDOUT, 0, 'E');
    CannotMatch(MISSING_REVERT, NO_NETWORK, 2, 'u');
    CannotMatch(MISSING_REVERT, RPC_ERROR, 0, 'E');
  }

  lemma MissingRevertLacksToo()
    ensures !Matches(MISSING_REVERT, TOO_MANY_REQUESTS)
    ensures !Matches(MISSING_REVERT, TOO_MANY_CONNECTIONS)
  {
    hide Matches;
    CannotMatch(MISSING_REVERT, TOO_MANY_REQUESTS, 0, 'T');
    CannotMatch(MISSING_REVERT, TOO_MANY_CONNECTIONS, 0, 'T');
  }

  lemma MissingRevertIsItself()
    ensures Classify(Some(MISSING_REVERT)) == Exception(MISSING_REVERT, ERR1007, Fatal)
  {
    hide Matches;
    MissingRevertIsNoResponse();
    MissingRevertIsNoProcessingError();
    MissingRevertLacks();
    MissingRevertLacksToo();
    MatchesItself(MISSING_REVERT);
  }

  lemma EmptyIsUnknown()
    ensures Classify(Some("")) == Exception(UNKNOWN, ERR1001, Fatal)
  {
    hide Matches;
    NothingInEmpty(MISSING_RESPONSE);
    NothingInEmpty(ETIMEDOUT);
    NothingInEmpty(NO_NETWORK);
    NothingInEmpty(RPC_ERROR);
    NothingInEmpty(TOO_MANY_REQUESTS);
    NothingInEmpty(PROCESSING_ERROR);
    NothingInEmpty(TOO_MANY_CONNECTIONS);
    NothingInEmpty(MISSING_REVERT);
  }

  lemma NothingInEmpty(text: string)
    requires text != []
    ensures !Matches("", text)
  {
  }

  /** The network class: the text occurs and no earlier text does. */
  predicate UndetectedNetwork(message: Option<string>) {
    && message.Some?
    && Matches(message.value, NO_NETWORK)
    && !Matches(message.value, MISSING_RESPONSE)
    && !Matches(message.value, ETIMEDOUT)
  }

  /** Handling an error a second time, as the nested handlers of the price job do, gives the same code and level
      for every message except those of the network class, whose empty replacement message turns a Normal
      exception into a Fatal one. */
  lemma SecondHandlerAgrees(message: Option<string>)
    ensures var first := Classify(message);
            && (Classify(Some(first.message)) == first <==> !UndetectedNetwork(message))
            && (UndetectedNetwork(message) ==>
                  first.level == Normal && Classify(Some(first.message)) == Exception(UNKNOWN, ERR1001, Fatal))
  {
    hide Matches;
    MissingResponseIsItself();
    TimeoutIsItself();
    RpcErrorIsItself();
    TooManyRequestsIsItself();
    ProcessingErrorIsItself();
    TooManyConnectionsIsItself();
    MissingRevertIsItself();
    UnknownIsItself();
    EmptyIsUnknown();
  }

  // ---------- the classes as a list ----------

  /** A text, and the exception of a message that holds it. */
  datatype Class = Class(text: string, exception: Exception)

  /** The classes in the order in which they are looked for. */
  function Classes(): seq<Class> {
    [Class(MISSING_RESPONSE, Exception("missing response", ERR1002, Normal)),
     Class(ETIMEDOUT, Exception("ETIMEDOUT", ERR1003, Normal)),
     Class("could not detect network", Exception("", ERR003, Normal)),
     Class(RPC_ERROR, Exception("Expected rpc error", ERR1005, Normal)),
     Class(TOO_MANY_REQUESTS, Exception("Too Many Requests", ERR1009, Normal)),
     Class(PROCESSING_ERROR, Exception("processing response error", ERR1010, Normal)),
     Class(TOO_MANY_CONNECTIONS, Exception("Too many connections", ERR1008, Fatal)),
     Class(MISSING_REVERT, Exception(MISSING_REVERT, ERR1007, Fatal))]
  }

  predicate Occurs(message: string, text: string) {
    exists i: nat :: i <= |message| && Starts(message, text, i)
  }

  /** The exception of a message is that of the first class whose text occurs in it, and the unknown, Fatal one if none
      does or there is no message. */
  lemma FirstClassWins(message: string, k: nat)
    requires k <= 8 && forall j :: 0 <= j < k ==> !Occurs(message, Classes()[j].text)
    ensures k < 8 && Occurs(message, Classes()[k].text) ==> Classify(Some(message)) == Classes()[k].exception
    ensures k == 8 ==> Classify(Some(message)) == Exception("Unknown exception", ERR1001, Fatal)
    ensures Classify(None) == Exception("Unknown exception", ERR1001, Fatal)
  {
    var cs := Classes();
    forall j | 0 <= j < 8
      ensures Matches(message, cs[j].text) <==> Occurs(message, cs[j].text)
    {
      OccursExactly(message, cs[j].text);
    }
    hide Matches, Occurs;
    assert forall j :: 0 <= j < k ==> !Matches(message, cs[j].text);
    FirstMatch(message, k);
  }

  lemma FirstMatch(message: string, k: nat)
    requires k <= 8 && forall j :: 0 <= j < k ==> !Matches(message, Classes()[j].text)
    ensures k < 8 && Matches(message, Classes()[k].text) ==> Classify(Some(message)) == Classes()[k].exception
    ensures k == 8 ==> Classify(Some(message)) == Exception("Unknown exception", ERR1001, Fatal)
  {
    hide Matches;
    var cs := Classes();
    assert k > 0 ==> !Matches(message, cs[0].text);
    assert k > 1 ==> !Matches(message, cs[1].text);
    assert k > 2 ==> !Matches(message, cs[2].text);
    assert k > 3 ==> !Matches(message, cs[3].text);
    assert k > 4 ==> !Matches(message, cs[4].text);
    assert k > 5 ==> !Matches(message, cs[5].text);
    assert k > 6 ==> !Matches(message, cs[6].text);
    assert k > 7 ==> !Matches(message, cs[7].text);
  }

  lemma OccursExactly(message: string, text: string)
    ensures Matches(message, text) <==> Occurs(message, text)
  {
    MatchesMeansOccurs(message, text);
    hide Matches;
    if i: nat :| Starts(message, text, i) {
      assert i <= |message|;
    }
  }

  /** The plain message of the class: Normal at the first handler, Fatal at the second. */
  lemma UndetectedNetworkTurnsFatal()
    ensures Classify(Some(NO_NETWORK)) == Exception("", ERR003, Normal)
    ensures Classify(Some(Classify(Some(NO_NETWORK)).message)) == Exception(UNKNOWN, ERR1001, Fatal)
  {
    hide Matches;
    CannotMatch(NO_NETWORK, MISSING_RESPONSE, 0, 'm');
    CannotMatch(NO_NETWORK, ETIMEDOUT, 0, 'E');
    MatchesItself(NO_NETWORK);
    EmptyIsUnknown();
  }
}
