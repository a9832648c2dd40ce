/** How a message is stored in the stream of its room, as a flat list of field names
    and values, and how it is read back. */
module StreamCodec {
  import opened Wrappers

  datatype Message = Message(id: string, roomId: string, userId: string, content: string, kind: string,
                             timestamp: nat, priority: Option<string>, replyTo: Option<string>,
                             edited: Option<bool>, metadata: Option<string>)

  /** A message read back. The timestamp is None where `parseInt` gives NaN. */
  datatype Decoded = Decoded(id: string, roomId: string, userId: string, content: string, kind: string,
                             timestamp: Option<int>, priority: Option<string>, replyTo: Option<string>)

  // ---- Numbers ------------------------------------------------------------------------

  function Digit(d: nat): char
    requires d < 10
  {
    ['0', '1', '2', '3', '4', '5', '6', '7', '8', '9'][d]
  }

  function ValueOf(c: char): Option<nat> {
    if '0' <= c <= '9' then Some((c - '0') as int) else None
  }

  /** `toString` of a non-negative integer. */
  function Decimal(n: nat): string {
    if n < 10 then [Digit(n)] else Decimal(n / 10) + [Digit(n % 10)]
  }

  /** The digits at the front of `s`, read after others that gave `acc`. */
  function ReadDigits(acc: nat, s: string): nat
    decreases |s|
  {
    if s == "" || ValueOf(s[0]).None? then acc else ReadDigits(acc * 10 + ValueOf(s[0]).value, s[1..])
  }

  function SkipBlanks(s: string): string
    decreases |s|
  {
    if s != "" && s[0] in " \t\n\r" then SkipBlanks(s[1..]) else s
  }

  /** `parseInt(s, 10)`: blanks, a sign, and at least one digit; the rest is ignored. */
  function ParseInt(s: string): Option<int> {
    var t := SkipBlanks(s);
    var digits := if t != "" && t[0] in "+-" then t[1..] else t;
    if digits == "" || ValueOf(digits[0]).None? then None
    else
      var n: int := ReadDigits(0, digits);
      Some(if t[0] == '-' then -n else n)
  }

  lemma DigitValue(d: nat)
    requires d < 10
    ensures ValueOf(Digit(d)) == Some(d)
  {}

  /** Reading the digits of `n` and then whatever follows. */
  lemma {:induction false} ReadDecimal(n: nat, rest: string)
    ensures ReadDigits(0, Decimal(n) + rest) == ReadDigits(n, rest)
    decreases n
  {
    if n < 10 {
      DigitValue(n);
      assert (Decimal(n) + rest)[1..] == rest;
    } else {
      var last := [Digit(n % 10)];
      DigitValue(n % 10);
      assert Decimal(n) + rest == Decimal(n / 10) + (last + rest);
      ReadDecimal(n / 10, last + rest);
      assert (last + rest)[1..] == rest;
    }
  }

  lemma {:induction false} DecimalStarts(n: nat)
    ensures Decimal(n) != "" && '0' <= Decimal(n)[0] <= '9'
    decreases n
  {
    if n >= 10 { DecimalStarts(n / 10); }
  }

  /** Timestamps survive printing and parsing. */
  lemma DecimalRoundTrip(n: nat)
    ensures ParseInt(Decimal(n)) == Some(n)
  {
    DecimalStarts(n);
    ReadDecimal(n, "");
    assert Decimal(n) + "" == Decimal(n);
  }

  // ---- Fields ---------------------------------------------------------------------------

  /** An optional field is stored unless it is missing or empty. */
  function Optional(name: string, value: Option<string>): seq<string> {
    if value.Some? && value.value != "" then [name, value.value] else []
  }

  function Encode(m: Message): seq<string> {
    ["id", m.id, "roomId", m.roomId, "userId", m.userId, "content", m.content, "type", m.kind,
     "timestamp", Decimal(m.timestamp)] + Optional("priority", m.priority) + Optional("replyTo", m.replyTo)
  }

  /** Builds the list by appending to it. */
  method PersistedFields(m: Message) returns (fields: seq<string>)
    ensures fields == Encode(m)
  {
    fields := ["id", m.id, "roomId", m.roomId, "userId", m.userId, "content", m.content, "type", m.kind,
               "timestamp", Decimal(m.timestamp)];
    if m.priority.Some? && m.priority.value != "" {
      fields := fields + ["priority", m.priority.value];
    }
    if m.replyTo.Some? && m.replyTo.value != "" {
      fields := fields + ["replyTo", m.replyTo.value];
    }
  }

  /** The element at `i`, undefined past the end. */
  function At(arr: seq<string>, i: nat): Option<string> {
    if i < |arr| then Some(arr[i]) else None
  }

  /** `obj[name] = value`, where `value` is a string or undefined: no entry of a
      JavaScript object has the name `__proto__`. */
  function Assigned(obj: map<string, Option<string>>, name: string, value: Option<string>)
    : map<string, Option<string>>
  {
    if name == "__proto__" then obj else obj[name := value]
  }

  /** The object after the first `n` pairs, the last of which may lack its value. */
  function FirstPairs(arr: seq<string>, n: nat): map<string, Option<string>>
    requires 2 * n <= |arr| + 1
  {
    if n == 0 then map[] else Assigned(FirstPairs(arr, n - 1), arr[2 * n - 2], At(arr, 2 * n - 1))
  }

  function ObjectOf(arr: seq<string>): map<string, Option<string>> {
    FirstPairs(arr, (|arr| + 1) / 2)
  }

  method ArrayToObject(arr: seq<string>) returns (obj: map<string, Option<string>>)
    ensures obj == ObjectOf(arr)
  {
    obj := map[];
    var i := 0;
    while i < |arr|
      invariant i % 2 == 0 && i <= |arr| + 1 && obj == FirstPairs(arr, i / 2)
    {
      obj := Assigned(obj, arr[i], At(arr, i + 1));
      i := i + 2;
    }
  }

  /** `j` is the last pair, of the first `n`, with name `k`. */
  predicate LastPair(arr: seq<string>, n: nat, k: string, j: nat)
    requires 2 * n <= |arr| + 1
  {
    j < n && arr[2 * j] == k && forall i :: j < i < n ==> arr[2 * i] != k
  }

  /** The object has the names at the even positions, but for `__proto__`, each with
      the value that follows its last occurrence. */
  lemma {:induction false} ObjectMeaning(arr: seq<string>, n: nat, k: string)
    requires 2 * n <= |arr| + 1
    ensures k in FirstPairs(arr, n) <==> k != "__proto__" && exists j: nat :: LastPair(arr, n, k, j)
    ensures k != "__proto__" ==> forall j: nat :: LastPair(arr, n, k, j) ==> FirstPairs(arr, n)[k] == At(arr, 2 * j + 1)
  {
    if n > 0 {
      ObjectMeaning(arr, n - 1, k);
      if arr[2 * (n - 1)] == k {
        assert LastPair(arr, n, k, n - 1);
      } else {
        if k in FirstPairs(arr, n - 1) {
          var j: nat :| LastPair(arr, n - 1, k, j);
          assert LastPair(arr, n, k, j);
        }
        assert forall j: nat :: LastPair(arr, n, k, j) ==> LastPair(arr, n - 1, k, j);
      }
    }
  }

  // ---- Reading back -----------------------------------------------------------------------

  function Field(obj: map<string, Option<string>>, name: string): Option<string> {
    if name in obj then obj[name] else None
  }

  /** `value ?? fallback`. */
  function Else(value: Option<string>, fallback: string): string {
    if value.Some? then value.value else fallback
  }

  function Decode(entryId: string, room: string, arr: seq<string>): Decoded {
    var obj := ObjectOf(arr);
    Decoded(Else(Field(obj, "id"), entryId), Else(Field(obj, "roomId"), room), Else(Field(obj, "userId"), "unknown"),
            Else(Field(obj, "content"), ""), Else(Field(obj, "type"), "text"),
            ParseInt(Else(Field(obj, "timestamp"), "0")), Field(obj, "priority"), Field(obj, "replyTo"))
  }

  /** An empty optional field is as good as none. */
  function NonEmpty(value: Option<string>): Option<string> {
    if value == Some("") then None else value
  }

  /** What storing keeps of a message: all but `edited`, `metadata` and empty
      optional fields. */
  function Erase(m: Message): Decoded {
    Decoded(m.id, m.roomId, m.userId, m.content, m.kind, Some(m.timestamp), NonEmpty(m.priority), NonEmpty(m.replyTo))
  }

  lemma ThreeFields(m: Message)
    ensures |Encode(m)| >= 12
    ensures FirstPairs(Encode(m), 3) ==
      map["id" := Some(m.id), "roomId" := Some(m.roomId), "userId" := Some(m.userId)]
  {
    var arr := Encode(m);
    assert FirstPairs(arr, 1) == map["id" := Some(m.id)];
    assert FirstPairs(arr, 2) == FirstPairs(arr, 1)["roomId" := Some(m.roomId)];
    assert FirstPairs(arr, 3) == FirstPairs(arr, 2)["userId" := Some(m.userId)];
  }

  lemma SixFields(m: Message)
    ensures |Encode(m)| >= 12
    ensures FirstPairs(Encode(m), 6) ==
      map["id" := Some(m.id), "roomId" := Some(m.roomId), "userId" := Some(m.userId), "content" := Some(m.content),
          "type" := Some(m.kind), "timestamp" := Some(Decimal(m.timestamp))]
  {
    var arr := Encode(m);
    ThreeFields(m);
    assert FirstPairs(arr, 4) == FirstPairs(arr, 3)["content" := Some(m.content)];
    assert FirstPairs(arr, 5) == FirstPairs(arr, 4)["type" := Some(m.kind)];
    assert FirstPairs(arr, 6) == FirstPairs(arr, 5)["timestamp" := Some(Decimal(m.timestamp))];
  }

  /** `obj` with the field, if the field is stored. */
  function With(obj: map<string, Option<string>>, name: string, value: Option<string>): map<string, Option<string>> {
    if NonEmpty(value).Some? then obj[name := value] else obj
  }

  lemma EncodedObject(m: Message)
    ensures ObjectOf(Encode(m)) == With(With(FirstPairs(Encode(m), 6), "priority", m.priority), "replyTo", m.replyTo)
  {
    var arr := Encode(m);
    if NonEmpty(m.priority).Some? && NonEmpty(m.replyTo).Some? {
      assert FirstPairs(arr, 7) == FirstPairs(arr, 6)["priority" := m.priority];
      assert FirstPairs(arr, 8) == FirstPairs(arr, 7)["replyTo" := m.replyTo];
    }
  }

  lemma EncodedFields(m: Message)
    ensures
      var obj := ObjectOf(Encode(m));
      && Field(obj, "id") == Some(m.id) && Field(obj, "roomId") == Some(m.roomId)
      && Field(obj, "userId") == Some(m.userId) && Field(obj, "content") == Some(m.content)
      && Field(obj, "type") == Some(m.kind) && Field(obj, "timestamp") == Some(Decimal(m.timestamp))
  {
    SixFields(m);
    EncodedObject(m);
  }

  lemma EncodedOptions(m: Message)
    ensures
      var obj := ObjectOf(Encode(m));
      Field(obj, "priority") == NonEmpty(m.priority) && Field(obj, "replyTo") == NonEmpty(m.replyTo)
  {
    SixFields(m);
    EncodedObject(m);
  }

  /** Reading back what was stored gives the message, up to what storing drops. */
  lemma RoundTrip(m: Message, entryId: string, room: string)
    ensures Decode(entryId, room, Encode(m)) == Erase(m)
  {
    EncodedFields(m);
    EncodedOptions(m);
    DecimalRoundTrip(m.timestamp);
  }

  /** A decoded message as a message; a timestamp that is not a number has none. */
  function Whole(d: Decoded): Option<Message> {
    if d.timestamp.None? || d.timestamp.value < 0 then None
    else
      Some(Message(d.id, d.roomId, d.userId, d.content, d.kind, d.timestamp.value, d.priority, d.replyTo, None, None))
  }

  /** Nothing is lost exactly when there was nothing to drop. */
  lemma LosslessExact(m: Message, entryId: string, room: string)
    ensures Whole(Decode(entryId, room, Encode(m))) == Some(m) <==>
      m.edited.None? && m.metadata.None? && m.priority != Some("") && m.replyTo != Some("")
  {
    RoundTrip(m, entryId, room);
  }
}
