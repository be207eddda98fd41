/**
 The wire form of stream messages, and the retries of a failed write. The JSON printer and parser
 are parameters; the parser is asked to undo the printer.
 */
module StreamMessages {
  import opened Options
  import opened Entries

  /** serializeMessage: field, value, field, value. */
  function Serialize<V>(stringify: V -> string, message: seq<Entry<V>>): seq<string> {
    if message == [] then []
    else [message[0].key, stringify(message[0].value)] + Serialize(stringify, message[1..])
  }

  /** A value that does not parse is kept as the string it came as. */
  function Decode<V>(parse: string -> Option<V>, raw: string -> V, text: string): V {
    match parse(text)
    case Some(v) => v
    case None => raw(text)
  }

  function Prefix<V>(parse: string -> Option<V>, raw: string -> V, fields: seq<string>, pairs: nat): map<string, V>
    requires 2 * pairs <= |fields|
  {
    if pairs == 0 then map[]
    else
      var filled := Prefix(parse, raw, fields, pairs - 1);
      var key := fields[2 * pairs - 2];
      if key == PROTO then filled else filled[key := Decode(parse, raw, fields[2 * pairs - 1])]
  }

  lemma {:induction false} SerializedAt<V>(stringify: V -> string, message: seq<Entry<V>>, i: nat)
    ensures |Serialize(stringify, message)| == 2 * |message|
    ensures i < |message| ==> Serialize(stringify, message)[2 * i] == message[i].key
    ensures i < |message| ==> Serialize(stringify, message)[2 * i + 1] == stringify(message[i].value)
  {
    if message != [] {
      SerializedAt(stringify, message[1..], if i == 0 then 0 else i - 1);
      if 0 < i < |message| {
        var rest := Serialize(stringify, message[1..]);
        assert Serialize(stringify, message)[2 * i] == rest[2 * (i - 1)];
        assert Serialize(stringify, message)[2 * i + 1] == rest[2 * (i - 1) + 1];
      }
    }
  }

  lemma {:induction false} PrefixOfSerialized<V(!new)>(stringify: V -> string, parse: string -> Option<V>, raw: string -> V,
                                                       entries: seq<Entry<V>>, pairs: nat)
    requires forall v :: parse(stringify(v)) == Some(v)
    requires pairs <= |entries| && |Serialize(stringify, entries)| == 2 * |entries|
    ensures Prefix(parse, raw, Serialize(stringify, entries), pairs) == ToObject(entries[..pairs])
  {
    if pairs > 0 {
      PrefixOfSerialized(stringify, parse, raw, entries, pairs - 1);
      SerializedAt(stringify, entries, pairs - 1);
      assert entries[..pairs][..pairs - 1] == entries[..pairs - 1];
    }
  }

  /** deserializeMessage: fills the message pair by pair; Redis returns fields in pairs. */
  method DeserializeMessage<V>(parse: string -> Option<V>, raw: string -> V, fields: seq<string>)
    returns (message: map<string, V>)
    requires |fields| % 2 == 0
    ensures message == Prefix(parse, raw, fields, |fields| / 2)
  {
    message := map[];
    var i := 0;
    while i < |fields|
      invariant 0 <= i <= |fields| && i % 2 == 0
      invariant message == Prefix(parse, raw, fields, i / 2)
    {
      var key, value := fields[i], fields[i + 1];
      if key != PROTO {
        match parse(value) {
          case Some(v) => message := message[key := v];
          case None => message := message[key := raw(value)];
        }
      }
      i := i + 2;
    }
  }

  /** Pair i is the last one of the first n with its key. */
  ghost predicate LastPair(fields: seq<string>, n: nat, i: nat)
    requires 2 * n <= |fields|
  {
    i < n && forall j :: i < j < n ==> fields[2 * j] != fields[2 * i]
  }

  /**
   What any list of fields decodes to: every key but "__proto__", with the value of its last pair, which is
   the parsed text, or the text itself when it does not parse.
   */
  lemma {:induction false} DecodedFields<V>(parse: string -> Option<V>, raw: string -> V, fields: seq<string>,
                                            n: nat, i: nat)
    requires 2 * n <= |fields| && LastPair(fields, n, i) && fields[2 * i] != PROTO
    ensures var message, text := Prefix(parse, raw, fields, n), fields[2 * i + 1];
            && fields[2 * i] in message
            && (parse(text).Some? ==> message[fields[2 * i]] == parse(text).value)
            && (parse(text).None? ==> message[fields[2 * i]] == raw(text))
  {
    if i < n - 1 {
      assert fields[2 * (n - 1)] != fields[2 * i];
      DecodedFields(parse, raw, fields, n - 1, i);
    }
  }

  lemma {:induction false} DecodedKeysAreFields<V>(parse: string -> Option<V>, raw: string -> V, fields: seq<string>,
                                                   n: nat, key: string)
    requires 2 * n <= |fields| && key in Prefix(parse, raw, fields, n)
    ensures key != PROTO && exists i: nat :: i < n && fields[2 * i] == key
  {
    if key != fields[2 * n - 2] {
      DecodedKeysAreFields(parse, raw, fields, n - 1, key);
      var i: nat :| i < n - 1 && fields[2 * i] == key;
      assert fields[2 * i] == key;
    } else {
      assert fields[2 * (n - 1)] == key;
      if key == PROTO {
        NoProto(parse, raw, fields, n);
      }
    }
  }

  lemma {:induction false} NoProto<V>(parse: string -> Option<V>, raw: string -> V, fields: seq<string>, n: nat)
    requires 2 * n <= |fields|
    ensures PROTO !in Prefix(parse, raw, fields, n)
  {
    if n > 0 {
      NoProto(parse, raw, fields, n - 1);
    }
  }

  /** Decoding undoes encoding for every message but those with a field named "__proto__". */
  lemma RoundTripIff<V(!new)>(stringify: V -> string, parse: string -> Option<V>, raw: string -> V,
                              entries: seq<Entry<V>>, message: map<string, V>)
    requires forall v :: parse(stringify(v)) == Some(v)
    requires Enumerates(entries, message)
    ensures var fields := Serialize(stringify, entries);
            && |fields| == 2 * |entries|
            && (Prefix(parse, raw, fields, |entries|) == message <==> PROTO !in message)
  {
    SerializedAt(stringify, entries, 0);
    PrefixOfSerialized(stringify, parse, raw, entries, |entries|);
    assert entries[..|entries|] == entries;
    EnumerationIsObjectIff(entries, message);
  }

  // ----- Retries of a failed write -----

  /** A write throws without being applied, is applied and answered, or is applied and its reply lost. */
  datatype Write = Fails | Succeeds | ReplyLost

  /** How try j of retry k would go. */
  type Tries = (nat, nat) -> Write

  /** retryOperation, from its given attempt on: the writes made until one is answered or none is left. */
  function Made(maxRetries: nat, tries: Tries, k: nat, attempt: nat): seq<Write>
    decreases maxRetries - attempt
  {
    if attempt >= maxRetries then []
    else [tries(k, attempt)] + if tries(k, attempt).Succeeds? then [] else Made(maxRetries, tries, k, attempt + 1)
  }

  /** The writes of the retries k, k+1, ... of the loop, which starts every one of them. */
  function MadeFrom(maxRetries: nat, tries: Tries, k: nat): seq<Write>
    decreases maxRetries - k
  {
    if k >= maxRetries then [] else Made(maxRetries, tries, k, 0) + MadeFrom(maxRetries, tries, k + 1)
  }

  /** How many of the writes were applied. */
  function Copies(writes: seq<Write>): nat {
    if writes == [] then 0 else (if writes[0].Fails? then 0 else 1) + Copies(writes[1..])
  }

  predicate Resolves(maxRetries: nat, tries: Tries, k: nat) {
    exists j :: 0 <= j < maxRetries && tries(k, j).Succeeds?
  }

  lemma {:induction false} CopiesConcat(a: seq<Write>, b: seq<Write>)
    ensures Copies(a + b) == Copies(a) + Copies(b)
  {
    if a == [] {
      assert a + b == b;
    } else {
      assert (a + b)[1..] == a[1..] + b;
      CopiesConcat(a[1..], b);
    }
  }

  lemma {:induction false} CopiesBounded(writes: seq<Write>)
    ensures Copies(writes) <= |writes|
  {
    if writes != [] {
      CopiesBounded(writes[1..]);
    }
  }

  lemma MadeNext(maxRetries: nat, tries: Tries, k: nat, attempt: nat)
    requires attempt < maxRetries
    ensures var rest := if tries(k, attempt).Succeeds? then [] else Made(maxRetries, tries, k, attempt + 1);
            && |Made(maxRetries, tries, k, attempt)| == 1 + |rest|
            && Copies(Made(maxRetries, tries, k, attempt)) == (if tries(k, attempt).Fails? then 0 else 1) + Copies(rest)
  {
    var rest := if tries(k, attempt).Succeeds? then [] else Made(maxRetries, tries, k, attempt + 1);
    CopiesConcat([tries(k, attempt)], rest);
  }

  lemma {:induction false} MadeBounded(maxRetries: nat, tries: Tries, k: nat, attempt: nat)
    requires attempt <= maxRetries
    ensures |Made(maxRetries, tries, k, attempt)| <= maxRetries - attempt
    decreases maxRetries - attempt
  {
    if attempt < maxRetries {
      MadeBounded(maxRetries, tries, k, attempt + 1);
    }
  }

  lemma {:induction false} AllMadeBounded(maxRetries: nat, tries: Tries, k: nat)
    requires k <= maxRetries
    ensures |MadeFrom(maxRetries, tries, k)| <= (maxRetries - k) * maxRetries
    decreases maxRetries - k
  {
    if k < maxRetries {
      MadeBounded(maxRetries, tries, k, 0);
      AllMadeBounded(maxRetries, tries, k + 1);
      assert (maxRetries - k) * maxRetries == maxRetries + (maxRetries - (k + 1)) * maxRetries;
    }
  }

  ghost predicate NoReplyLost(maxRetries: nat, tries: Tries) {
    forall k, j :: 0 <= k < maxRetries && 0 <= j < maxRetries ==> !tries(k, j).ReplyLost?
  }

  lemma {:induction false} OneCopyPerRetry(maxRetries: nat, tries: Tries, k: nat, attempt: nat)
    requires NoReplyLost(maxRetries, tries) && k < maxRetries
    ensures Copies(Made(maxRetries, tries, k, attempt))
         == if exists j :: attempt <= j < maxRetries && tries(k, j).Succeeds? then 1 else 0
    decreases maxRetries - attempt
  {
    if attempt < maxRetries {
      MadeNext(maxRetries, tries, k, attempt);
      OneCopyPerRetry(maxRetries, tries, k, attempt + 1);
    }
  }

  ghost function Resolving(maxRetries: nat, tries: Tries, k: nat): set<nat> {
    set l | k <= l < maxRetries && Resolves(maxRetries, tries, l)
  }

  /** While no reply is lost, one copy is stored for each retry that succeeds: a success does not end the loop. */
  lemma {:induction false} CopiesAreSuccesses(maxRetries: nat, tries: Tries, k: nat)
    requires NoReplyLost(maxRetries, tries) && k <= maxRetries
    ensures Copies(MadeFrom(maxRetries, tries, k)) == |Resolving(maxRetries, tries, k)| <= maxRetries - k
    decreases maxRetries - k
  {
    if k < maxRetries {
      CopiesAreSuccesses(maxRetries, tries, k + 1);
      CopiesConcat(Made(maxRetries, tries, k, 0), MadeFrom(maxRetries, tries, k + 1));
      OneCopyPerRetry(maxRetries, tries, k, 0);
      var rest := Resolving(maxRetries, tries, k + 1);
      assert Resolving(maxRetries, tries, k) == if Resolves(maxRetries, tries, k) then {k} + rest else rest;
    }
  }

  // ----- Stored exactly once -----

  predicate RetryFails(maxRetries: nat, tries: Tries, k: nat, attempt: nat) {
    forall j :: attempt <= j < maxRetries ==> tries(k, j).Fails?
  }

  /** From the attempt on, try j is the only write of the retry that is applied, whatever it goes on to do. */
  predicate OnlyTry(maxRetries: nat, tries: Tries, k: nat, attempt: nat, j: nat) {
    && attempt <= j < maxRetries && !tries(k, j).Fails?
    && (forall i :: attempt <= i < j ==> tries(k, i).Fails?)
    && (tries(k, j).ReplyLost? ==> RetryFails(maxRetries, tries, k, j + 1))
  }

  ghost predicate StoresOnce(maxRetries: nat, tries: Tries, k: nat, attempt: nat) {
    exists j :: OnlyTry(maxRetries, tries, k, attempt, j)
  }

  lemma {:induction false} RetryCopies(maxRetries: nat, tries: Tries, k: nat, attempt: nat)
    ensures Copies(Made(maxRetries, tries, k, attempt)) == 0 <==> RetryFails(maxRetries, tries, k, attempt)
    ensures Copies(Made(maxRetries, tries, k, attempt)) == 1 <==> StoresOnce(maxRetries, tries, k, attempt)
    decreases maxRetries - attempt
  {
    if attempt < maxRetries {
      MadeNext(maxRetries, tries, k, attempt);
      RetryCopies(maxRetries, tries, k, attempt + 1);
      if tries(k, attempt).Fails? {
        if StoresOnce(maxRetries, tries, k, attempt) {
          var j :| OnlyTry(maxRetries, tries, k, attempt, j);
          assert OnlyTry(maxRetries, tries, k, attempt + 1, j);
        }
        if StoresOnce(maxRetries, tries, k, attempt + 1) {
          var j :| OnlyTry(maxRetries, tries, k, attempt + 1, j);
          assert OnlyTry(maxRetries, tries, k, attempt, j);
        }
      } else {
        forall j ensures OnlyTry(maxRetries, tries, k, attempt, j) ==> j == attempt {
        }
        assert StoresOnce(maxRetries, tries, k, attempt) <==> OnlyTry(maxRetries, tries, k, attempt, attempt);
      }
    }
  }

  predicate AllFail(maxRetries: nat, tries: Tries, k: nat) {
    forall l :: k <= l < maxRetries ==> RetryFails(maxRetries, tries, l, 0)
  }

  /** Of the retries from k on, l stores one copy and the others fail altogether. */
  ghost predicate OnlyRetry(maxRetries: nat, tries: Tries, k: nat, l: nat) {
    && k <= l < maxRetries && StoresOnce(maxRetries, tries, l, 0)
    && (forall m :: k <= m < maxRetries && m != l ==> RetryFails(maxRetries, tries, m, 0))
  }

  ghost predicate OneRetryStores(maxRetries: nat, tries: Tries, k: nat) {
    exists l :: OnlyRetry(maxRetries, tries, k, l)
  }

  lemma {:induction false} AllCopies(maxRetries: nat, tries: Tries, k: nat)
    ensures Copies(MadeFrom(maxRetries, tries, k)) == 0 <==> AllFail(maxRetries, tries, k)
    ensures Copies(MadeFrom(maxRetries, tries, k)) == 1 <==> OneRetryStores(maxRetries, tries, k)
    decreases maxRetries - k
  {
    if k < maxRetries {
      CopiesConcat(Made(maxRetries, tries, k, 0), MadeFrom(maxRetries, tries, k + 1));
      RetryCopies(maxRetries, tries, k, 0);
      AllCopies(maxRetries, tries, k + 1);
      if RetryFails(maxRetries, tries, k, 0) {
        assert !StoresOnce(maxRetries, tries, k, 0);
        if OneRetryStores(maxRetries, tries, k) {
          var l :| OnlyRetry(maxRetries, tries, k, l);
          assert OnlyRetry(maxRetries, tries, k + 1, l);
        }
        if OneRetryStores(maxRetries, tries, k + 1) {
          var l :| OnlyRetry(maxRetries, tries, k + 1, l);
          assert OnlyRetry(maxRetries, tries, k, l);
        }
      } else {
        forall l ensures OnlyRetry(maxRetries, tries, k, l) ==> l == k {
        }
        assert OneRetryStores(maxRetries, tries, k) <==> OnlyRetry(maxRetries, tries, k, k);
        assert OnlyRetry(maxRetries, tries, k, k)
               <==> StoresOnce(maxRetries, tries, k, 0) && AllFail(maxRetries, tries, k + 1);
      }
    }
  }

  /** All writes of an add; its retries are started only when the first write throws. */
  function AddedWrites(maxRetries: nat, first: Write, tries: Tries): seq<Write> {
    [first] + if first.Succeeds? then [] else MadeFrom(maxRetries, tries, 0)
  }

  /**
   A message is stored exactly once if and only if its first write is answered, or that is applied and
   every retry fails, or it fails and one retry stores one copy while all others fail.
   */
  lemma StoredOnceIff(maxRetries: nat, first: Write, tries: Tries)
    ensures Copies(AddedWrites(maxRetries, first, tries)) == 1
            <==> match first
                 case Succeeds => true
                 case ReplyLost => AllFail(maxRetries, tries, 0)
                 case Fails => OneRetryStores(maxRetries, tries, 0)
  {
    CopiesConcat([first], if first.Succeeds? then [] else MadeFrom(maxRetries, tries, 0));
    AllCopies(maxRetries, tries, 0);
  }

  lemma {:induction false} LostRetry(maxRetries: nat, tries: Tries, k: nat, attempt: nat)
    requires forall l, j :: tries(l, j).ReplyLost?
    requires attempt <= maxRetries
    ensures Copies(Made(maxRetries, tries, k, attempt)) == maxRetries - attempt
    decreases maxRetries - attempt
  {
    if attempt < maxRetries {
      MadeNext(maxRetries, tries, k, attempt);
      LostRetry(maxRetries, tries, k, attempt + 1);
    }
  }

  /** When every write is applied and every reply lost, the bound on writes is met, and all are copies. */
  lemma {:induction false} EveryReplyLost(maxRetries: nat, tries: Tries, k: nat)
    requires forall l, j :: tries(l, j).ReplyLost?
    requires k <= maxRetries
    ensures Copies(MadeFrom(maxRetries, tries, k)) == (maxRetries - k) * maxRetries
    decreases maxRetries - k
  {
    if k < maxRetries {
      LostRetry(maxRetries, tries, k, 0);
      EveryReplyLost(maxRetries, tries, k + 1);
      CopiesConcat(Made(maxRetries, tries, k, 0), MadeFrom(maxRetries, tries, k + 1));
      assert (maxRetries - k) * maxRetries == maxRetries + (maxRetries - (k + 1)) * maxRetries;
    }
  }

  /** Resolves with the first answered try, or throws when the last one has thrown. */
  method RetryOperation(maxRetries: nat, tries: Tries, k: nat) returns (resolved: bool, made: nat, copies: nat)
    ensures resolved <==> Resolves(maxRetries, tries, k)
    ensures made == |Made(maxRetries, tries, k, 0)| <= maxRetries
    ensures copies == Copies(Made(maxRetries, tries, k, 0)) <= made
  {
    MadeBounded(maxRetries, tries, k, 0);
    CopiesBounded(Made(maxRetries, tries, k, 0));
    resolved, made, copies := false, 0, 0;
    var attempt := 0;
    while attempt < maxRetries && !resolved
      invariant 0 <= attempt <= maxRetries
      invariant resolved ==> attempt < maxRetries && tries(k, attempt).Succeeds?
      invariant forall j :: 0 <= j < attempt ==> !tries(k, j).Succeeds?
      invariant |Made(maxRetries, tries, k, 0)| == made + if resolved then 0 else |Made(maxRetries, tries, k, attempt)|
      invariant Copies(Made(maxRetries, tries, k, 0))
             == copies + if resolved then 0 else Copies(Made(maxRetries, tries, k, attempt))
      decreases maxRetries - attempt, !resolved
    {
      MadeNext(maxRetries, tries, k, attempt);
      made := made + 1;
      var write := tries(k, attempt);
      if !write.Fails? {
        copies := copies + 1;
      }
      if write.Succeeds? {
        resolved := true;
      } else {
        attempt := attempt + 1;
      }
    }
  }

  /**
   addToStream: when its first write throws, every retry is started, and none stops the others. At most
   1 + maxRetries squared writes are made; while no reply is lost there are as many copies as retries
   that succeed, at most maxRetries.
   */
  method AddToStream(maxRetries: nat, first: Write, tries: Tries) returns (writes: nat, copies: nat)
    ensures writes == |AddedWrites(maxRetries, first, tries)| <= 1 + maxRetries * maxRetries
    ensures copies == Copies(AddedWrites(maxRetries, first, tries)) <= writes
    ensures first.Fails? && NoReplyLost(maxRetries, tries) ==>
              copies == |Resolving(maxRetries, tries, 0)| <= maxRetries
  {
    CopiesConcat([first], if first.Succeeds? then [] else MadeFrom(maxRetries, tries, 0));
    CopiesBounded(AddedWrites(maxRetries, first, tries));
    AllMadeBounded(maxRetries, tries, 0);
    if NoReplyLost(maxRetries, tries) {
      CopiesAreSuccesses(maxRetries, tries, 0);
    }
    writes, copies := 1, if first.Fails? then 0 else 1;
    if !first.Succeeds? {
      for k := 0 to maxRetries
        invariant writes + |MadeFrom(maxRetries, tries, k)| == 1 + |MadeFrom(maxRetries, tries, 0)|
        invariant copies + Copies(MadeFrom(maxRetries, tries, k))
               == Copies([first]) + Copies(MadeFrom(maxRetries, tries, 0))
      {
        CopiesConcat(Made(maxRetries, tries, k, 0), MadeFrom(maxRetries, tries, k + 1));
        var resolved, made, stored := RetryOperation(maxRetries, tries, k);
        writes, copies := writes + made, copies + stored;
      }
    }
  }

  /** What addToStream promises, in one statement, and that lost replies alone make every write a copy. */
  lemma FailedWriteBounds(maxRetries: nat, first: Write, tries: Tries)
    ensures |AddedWrites(maxRetries, first, tries)| <= 1 + maxRetries * maxRetries
    ensures Copies(AddedWrites(maxRetries, first, tries)) <= 1 + maxRetries * maxRetries
    ensures first.Fails? && NoReplyLost(maxRetries, tries) ==> Copies(AddedWrites(maxRetries, first, tries)) <= maxRetries
    ensures first.ReplyLost? && (forall k, j :: tries(k, j).ReplyLost?) ==>
              Copies(AddedWrites(maxRetries, first, tries)) == 1 + maxRetries * maxRetries
  {
    var retries := if first.Succeeds? then [] else MadeFrom(maxRetries, tries, 0);
    CopiesConcat([first], retries);
    CopiesBounded(AddedWrites(maxRetries, first, tries));
    AllMadeBounded(maxRetries, tries, 0);
    if NoReplyLost(maxRetries, tries) {
      CopiesAreSuccesses(maxRetries, tries, 0);
    }
    if forall k, j :: tries(k, j).ReplyLost? {
      EveryReplyLost(maxRetries, tries, 0);
    }
  }
}
