/**
 The query-string printer and the parser of section 5.1 of the WHATWG URL Standard, as
 URLSearchParams runs it. The percent decoding of a name or a value is a parameter that leaves
 strings without a percent sign alone.
 */
module QueryString {

  import opened Entries

  function Pair(e: Entry<string>): string {
    e.key + "=" + e.value
  }

  /** objectToQueryString */
  function Print(entries: seq<Entry<string>>): string {
    if entries == [] then ""
    else if |entries| == 1 then Pair(entries[0])
    else Pair(entries[0]) + "&" + Print(entries[1..])
  }

  function Split(s: string): (parts: seq<string>)
    ensures |parts| > 0
  {
    if s == [] then [[]]
    else
      var rest := Split(s[1..]);
      if s[0] == '&' then [[]] + rest else [[s[0]] + rest[0]] + rest[1..]
  }

  function Before(s: string): string {
    if s == [] || s[0] == '=' then [] else [s[0]] + Before(s[1..])
  }

  function After(s: string): string {
    if s == [] then [] else if s[0] == '=' then s[1..] else After(s[1..])
  }

  function PlusToSpace(s: string): string {
    if s == [] then [] else [if s[0] == '+' then ' ' else s[0]] + PlusToSpace(s[1..])
  }

  function ParseEntry(decode: string -> string, part: string): Entry<string> {
    Entry(decode(PlusToSpace(Before(part))), decode(PlusToSpace(After(part))))
  }

  function ParseParts(decode: string -> string, parts: seq<string>): seq<Entry<string>> {
    if parts == [] then []
    else (if parts[0] == [] then [] else [ParseEntry(decode, parts[0])]) + ParseParts(decode, parts[1..])
  }

  function WithoutQuestionMark(s: string): string {
    if s != [] && s[0] == '?' then s[1..] else s
  }

  /** The list of a URLSearchParams. */
  function Parse(decode: string -> string, s: string): seq<Entry<string>> {
    ParseParts(decode, Split(WithoutQuestionMark(s)))
  }

  ghost predicate LeavesPlainText(decode: string -> string) {
    forall s :: '%' !in s ==> decode(s) == s
  }

  predicate PlainEntry(e: Entry<string>) {
    '%' !in e.key && '%' !in e.value
  }

  predicate CleanEntry(e: Entry<string>) {
    && '&' !in e.key && '=' !in e.key && '+' !in e.key
    && '&' !in e.value && '+' !in e.value
  }

  lemma {:induction false} SplitFirst(part: string, rest: string)
    requires '&' !in part
    ensures Split(part) == [part]
    ensures Split(part + "&" + rest) == [part] + Split(rest)
  {
    if part == [] {
      assert part + "&" + rest == "&" + rest;
      assert ("&" + rest)[1..] == rest;
    } else {
      SplitFirst(part[1..], rest);
      assert (part + "&" + rest)[1..] == part[1..] + "&" + rest;
      assert part == [part[0]] + part[1..];
    }
  }

  lemma {:induction false} SplitAtEquals(key: string, value: string)
    requires '=' !in key
    ensures Before(key + "=" + value) == key && After(key + "=" + value) == value
  {
    if key == [] {
      assert key + "=" + value == "=" + value;
    } else {
      SplitAtEquals(key[1..], value);
      assert (key + "=" + value)[1..] == key[1..] + "=" + value;
    }
  }

  lemma {:induction false} PlusFree(s: string)
    ensures '+' !in PlusToSpace(s)
    ensures '+' !in s ==> PlusToSpace(s) == s
    ensures forall c :: c in PlusToSpace(s) && c != ' ' ==> c in s
  {
    if s != [] {
      PlusFree(s[1..]);
    }
  }

  lemma {:induction false} SplitParts(s: string, part: string)
    requires part in Split(s)
    ensures '&' !in part && forall c :: c in part ==> c in s
  {
    if s != [] {
      var rest := Split(s[1..]);
      if part in rest {
        SplitParts(s[1..], part);
      } else if s[0] != '&' {
        assert part == [s[0]] + rest[0];
        SplitParts(s[1..], rest[0]);
      }
    }
  }

  lemma {:induction false} BeforeAfterChars(s: string)
    ensures '=' !in Before(s)
    ensures forall c :: c in Before(s) ==> c in s
    ensures forall c :: c in After(s) ==> c in s
  {
    if s != [] {
      BeforeAfterChars(s[1..]);
    }
  }

  /** The parser undoes the printer, entry by entry, once no question mark is taken off. */
  lemma {:induction false} ParsePrinted(decode: string -> string, entries: seq<Entry<string>>)
    requires LeavesPlainText(decode)
    requires forall e :: e in entries ==> PlainEntry(e) && CleanEntry(e)
    ensures ParseParts(decode, Split(Print(entries))) == entries
  {
    if entries != [] {
      var e := entries[0];
      assert e in entries;
      SplitFirst(Pair(e), Print(entries[1..]));
      SplitAtEquals(e.key, e.value);
      PlusFree(e.key);
      PlusFree(e.value);
      assert Pair(e) != [];
      assert ParseEntry(decode, Pair(e)) == e;
      assert entries == [e] + entries[1..];
      if |entries| == 1 {
        assert [Pair(e)][1..] == [];
      } else {
        ParsePrinted(decode, entries[1..]);
        assert ([Pair(e)] + Split(Print(entries[1..])))[1..] == Split(Print(entries[1..]));
      }
    }
  }

  lemma {:induction false} ParsedAreClean(decode: string -> string, parts: seq<string>, e: Entry<string>)
    requires LeavesPlainText(decode)
    requires forall part :: part in parts ==> '&' !in part && '%' !in part
    requires e in ParseParts(decode, parts)
    ensures CleanEntry(e)
  {
    if parts[0] != [] && e == ParseEntry(decode, parts[0]) {
      assert parts[0] in parts;
      BeforeAfterChars(parts[0]);
      PlusFree(Before(parts[0]));
      PlusFree(After(parts[0]));
    } else {
      ParsedAreClean(decode, parts[1..], e);
    }
  }

  lemma {:induction false} PrintedIsPlain(entries: seq<Entry<string>>)
    requires forall e :: e in entries ==> PlainEntry(e)
    ensures '%' !in Print(entries)
  {
    if entries != [] {
      assert entries[0] in entries;
      PrintedIsPlain(entries[1..]);
    }
  }

  /** What makes an object without percent signs come back: nothing the parser gives a meaning to. */
  predicate ComesBack(entries: seq<Entry<string>>) {
    && (forall e :: e in entries ==> CleanEntry(e))
    && (entries != [] && entries[0].key != [] ==> entries[0].key[0] != '?')
  }

  lemma CleanComesBack(decode: string -> string, entries: seq<Entry<string>>)
    requires LeavesPlainText(decode) && ComesBack(entries)
    requires forall e :: e in entries ==> PlainEntry(e)
    ensures Parse(decode, Print(entries)) == entries
  {
    ParsePrinted(decode, entries);
    if entries != [] {
      assert Pair(entries[0]) != [];
      assert Print(entries)[0] == Pair(entries[0])[0];
    }
  }

  lemma UncleanEntryIsLost(decode: string -> string, entries: seq<Entry<string>>, e: Entry<string>)
    requires LeavesPlainText(decode) && e in entries && !CleanEntry(e)
    requires forall f :: f in entries ==> PlainEntry(f)
    ensures e !in Parse(decode, Print(entries))
  {
    PrintedIsPlain(entries);
    var s := WithoutQuestionMark(Print(entries));
    forall part | part in Split(s) ensures '&' !in part && '%' !in part {
      SplitParts(s, part);
    }
    if e in Parse(decode, Print(entries)) {
      ParsedAreClean(decode, Split(s), e);
    }
  }

  lemma QuestionMarkIsLost(decode: string -> string, entries: seq<Entry<string>>)
    requires LeavesPlainText(decode) && entries != []
    requires forall e :: e in entries ==> PlainEntry(e) && CleanEntry(e)
    requires entries[0].key != [] && entries[0].key[0] == '?'
    ensures Parse(decode, Print(entries)) == [Entry(entries[0].key[1..], entries[0].value)] + entries[1..]
  {
    var e := entries[0];
    var stripped := [Entry(e.key[1..], e.value)] + entries[1..];
    assert e in entries;
    assert stripped[1..] == entries[1..];
    assert Pair(e)[1..] == Pair(stripped[0]);
    assert Print(entries)[1..] == Print(stripped);
    forall f | f in stripped ensures PlainEntry(f) && CleanEntry(f) {
    }
    ParsePrinted(decode, stripped);
  }

  // ----- What the parser does to any text -----

  function Join(parts: seq<string>): string
    requires parts != []
  {
    if |parts| == 1 then parts[0] else parts[0] + "&" + Join(parts[1..])
  }

  /** The parts are the text cut at every ampersand. */
  lemma {:induction false} SplitCuts(s: string)
    ensures Join(Split(s)) == s
    ensures forall part :: part in Split(s) ==> '&' !in part
  {
    if s != [] {
      var rest := Split(s[1..]);
      SplitCuts(s[1..]);
      if s[0] == '&' {
        assert ([[]] + rest)[1..] == rest;
        assert s == "&" + s[1..];
      } else {
        assert ([[s[0]] + rest[0]] + rest[1..])[1..] == rest[1..];
        assert s == [s[0]] + s[1..];
        if |rest| == 1 {
          assert Join(Split(s)) == [s[0]] + rest[0];
        } else {
          assert Join(Split(s)) == ([s[0]] + rest[0]) + "&" + Join(rest[1..]);
          assert Join(rest) == rest[0] + "&" + Join(rest[1..]);
        }
      }
      assert forall part :: part in rest[1..] ==> part in rest;
    }
  }

  /** A part is its name and value around the first equals sign, and a name alone without one. */
  lemma {:induction false} CutAtTheFirstEquals(part: string)
    ensures '=' !in Before(part)
    ensures part == Before(part) + (if '=' in part then "=" + After(part) else "")
    ensures '=' !in part ==> After(part) == ""
  {
    if part != [] {
      assert part == [part[0]] + part[1..];
      CutAtTheFirstEquals(part[1..]);
    }
  }

  /** Every plus sign is read as a space, and no other character is touched. */
  lemma {:induction false} PlusIsSpace(s: string, i: nat)
    ensures |PlusToSpace(s)| == |s|
    ensures i < |s| ==> PlusToSpace(s)[i] == if s[i] == '+' then ' ' else s[i]
  {
    if s != [] {
      PlusIsSpace(s[1..], if i == 0 then 0 else i - 1);
    }
  }

  /** Of the parts exactly the non-empty ones make an entry each, in order. */
  lemma {:induction false} PartsInOrder(decode: string -> string, a: seq<string>, b: seq<string>)
    ensures ParseParts(decode, a + b) == ParseParts(decode, a) + ParseParts(decode, b)
  {
    if a == [] {
      assert a + b == b;
    } else {
      var first := if a[0] == [] then [] else [ParseEntry(decode, a[0])];
      assert (a + b)[1..] == a[1..] + b;
      PartsInOrder(decode, a[1..], b);
      assert first + (ParseParts(decode, a[1..]) + ParseParts(decode, b))
          == first + ParseParts(decode, a[1..]) + ParseParts(decode, b);
    }
  }

  lemma PartAlone(decode: string -> string, part: string)
    ensures ParseParts(decode, [part])
         == if part == "" then []
            else [Entry(decode(PlusToSpace(Before(part))), decode(PlusToSpace(After(part))))]
  {
    assert [part][1..] == [];
  }

  /** For instance, a text without special characters but plus signs is a name in which they are spaces. */
  lemma PlainTextIsAName(decode: string -> string, s: string)
    requires LeavesPlainText(decode) && s != "" && s[0] != '?'
    requires '&' !in s && '=' !in s && '%' !in s
    ensures Parse(decode, s) == [Entry(PlusToSpace(s), "")]
  {
    SplitFirst(s, "");
    CutAtTheFirstEquals(s);
    assert Before(s) == s;
    PlusFree(s);
    PartAlone(decode, s);
  }

  /**
   Main result: printing an object without percent signs and parsing it gives the object back if
   and only if its keys avoid & = +, its values avoid & +, its first key does not begin with ?, and
   no key is "__proto__".
   */
  lemma RoundTripIff(decode: string -> string, entries: seq<Entry<string>>, object_: map<string, string>)
    requires LeavesPlainText(decode) && Enumerates(entries, object_)
    requires forall e :: e in entries ==> PlainEntry(e)
    ensures ToObject(Parse(decode, Print(entries))) == object_ <==> ComesBack(entries) && PROTO !in object_
  {
    if PROTO in object_ {
      ObjectEntry(Parse(decode, Print(entries)), PROTO);
    } else if ComesBack(entries) {
      CleanComesBack(decode, entries);
      EnumerationIsObjectIff(entries, object_);
    } else if exists e :: e in entries && !CleanEntry(e) {
      var e :| e in entries && !CleanEntry(e);
      UncleanEntryIsLost(decode, entries, e);
      ObjectEntry(Parse(decode, Print(entries)), e.key);
    } else {
      QuestionMarkIsLost(decode, entries);
      var key := entries[0].key;
      ObjectEntry(Parse(decode, Print(entries)), key);
      assert key in object_;
    }
  }

  /** queryStringToObject: fills the result in the order of the list. */
  method QueryStringToObject(decode: string -> string, queryString: string) returns (result: map<string, string>)
    ensures result == ToObject(Parse(decode, queryString))
  {
    var params := Parse(decode, queryString);
    result := map[];
    for i := 0 to |params|
      invariant result == ToObject(params[..i])
    {
      assert params[..i + 1][..i] == params[..i];
      if params[i].key != PROTO {
        result := result[params[i].key := params[i].value];
      }
    }
    assert params[..|params|] == params;
  }
}
