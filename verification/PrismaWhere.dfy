/**
 The translation of a repository query into a Prisma filter. A record is matched by a query field
 by field: a null test, membership in a list, a nested query on a related record, or equality. The
 translation turns strings holding % or _ into a `contains` without the percent signs. What
 `contains` matches is a parameter; where it matters, it is asked to accept substrings.
 */
module PrismaWhere {

  datatype Value =
    | Null
    | Text(text: string)
    | Number(number: int)
    | Flag(flag: bool)
    | List(items: seq<Value>)
    | Params(fields: map<string, Value>)

  datatype Where =
    | IsNull
    | In(items: seq<Value>)
    | Contains(part: string)
    | Equals(value: Value)
    | All(fields: map<string, Where>)

  /** Stored data: scalars and related records; a missing field is null. */
  datatype Data =
    | Missing
    | TextData(text: string)
    | NumberData(number: int)
    | FlagData(flag: bool)
    | Record(fields: map<string, Data>)

  function Get(record: map<string, Data>, key: string): Data {
    if key in record then record[key] else Missing
  }

  predicate SameScalar(v: Value, d: Data) {
    match v
    case Null => d.Missing?
    case Text(s) => d == TextData(s)
    case Number(n) => d == NumberData(n)
    case Flag(b) => d == FlagData(b)
    case _ => false
  }

  predicate Matches(v: Value, d: Data)
    decreases v
  {
    match v
    case List(items) => exists i :: 0 <= i < |items| && SameScalar(items[i], d)
    case Params(fields) => d.Record? && forall key :: key in fields ==> Matches(fields[key], Get(d.fields, key))
    case _ => SameScalar(v, d)
  }

  predicate WhereMatches(contains: (string, string) -> bool, w: Where, d: Data)
    decreases w
  {
    match w
    case IsNull => d.Missing?
    case In(items) => exists i :: 0 <= i < |items| && SameScalar(items[i], d)
    case Contains(part) => d.TextData? && contains(d.text, part)
    case Equals(value) => SameScalar(value, d)
    case All(fields) => d.Record? && forall key :: key in fields ==> WhereMatches(contains, fields[key], Get(d.fields, key))
  }

  predicate HasWildcard(s: string) {
    '%' in s || '_' in s
  }

  function WithoutPercents(s: string): string {
    if s == [] then [] else (if s[0] == '%' then [] else [s[0]]) + WithoutPercents(s[1..])
  }

  function Translate(v: Value): Where
    decreases v
  {
    match v
    case Null => IsNull
    case Params(fields) => All(map key | key in fields :: Translate(fields[key]))
    case List(items) => In(items)
    case Text(s) => if HasWildcard(s) then Contains(WithoutPercents(s)) else Equals(v)
    case _ => Equals(v)
  }

  /** All strings asked for by equality, at any depth, satisfy p. */
  predicate TextLeaves(v: Value, p: string -> bool)
    decreases v
  {
    match v
    case Text(s) => p(s)
    case Params(fields) => forall key :: key in fields ==> TextLeaves(fields[key], p)
    case _ => true
  }

  /** A query without % and _ in its strings keeps its meaning: the same records match. */
  lemma {:induction false} TranslationKeepsMeaning(contains: (string, string) -> bool, v: Value, d: Data)
    requires TextLeaves(v, s => '%' !in s && '_' !in s)
    ensures WhereMatches(contains, Translate(v), d) <==> Matches(v, d)
    decreases v
  {
    if v.Params? && d.Record? {
      forall key | key in v.fields
        ensures WhereMatches(contains, Translate(v.fields[key]), Get(d.fields, key)) <==> Matches(v.fields[key], Get(d.fields, key))
      {
        TranslationKeepsMeaning(contains, v.fields[key], Get(d.fields, key));
      }
    }
  }

  /** The translated test still finds the string it was made from. */
  predicate StillFound(contains: (string, string) -> bool, s: string) {
    HasWildcard(s) ==> contains(s, WithoutPercents(s))
  }

  /**
   A record that matches the query matches its translation exactly when each of the query's strings
   contains itself without its percent signs.
   */
  lemma {:induction false} MatchSurvivesIff(contains: (string, string) -> bool, v: Value, d: Data)
    requires Matches(v, d)
    ensures WhereMatches(contains, Translate(v), d) <==> TextLeaves(v, s => StillFound(contains, s))
    decreases v
  {
    if v.Params? {
      var found := s => StillFound(contains, s);
      forall key | key in v.fields
        ensures WhereMatches(contains, Translate(v.fields[key]), Get(d.fields, key)) <==> TextLeaves(v.fields[key], found)
      {
        MatchSurvivesIff(contains, v.fields[key], Get(d.fields, key));
        SameLeaves(v.fields[key], s => StillFound(contains, s), found);
      }
      SameLeaves(v, s => StillFound(contains, s), found);
    }
  }

  lemma {:induction false} SameLeaves(v: Value, p: string -> bool, q: string -> bool)
    requires forall s :: p(s) <==> q(s)
    ensures TextLeaves(v, p) <==> TextLeaves(v, q)
    decreases v
  {
    if v.Params? {
      forall key | key in v.fields ensures TextLeaves(v.fields[key], p) <==> TextLeaves(v.fields[key], q) {
        SameLeaves(v.fields[key], p, q);
      }
    }
  }

  lemma {:induction false} NothingToRemove(s: string)
    requires '%' !in s
    ensures WithoutPercents(s) == s
  {
    if s != [] {
      NothingToRemove(s[1..]);
    }
  }

  lemma {:induction false} LeavesImply(v: Value, p: string -> bool, q: string -> bool)
    requires forall s :: p(s) ==> q(s)
    requires TextLeaves(v, p)
    ensures TextLeaves(v, q)
    decreases v
  {
    if v.Params? {
      forall key | key in v.fields ensures TextLeaves(v.fields[key], q) {
        LeavesImply(v.fields[key], p, q);
      }
    }
  }

  /** A query whose strings are only free of % loses no match, if every string contains itself. */
  lemma PercentFreeLosesNoMatch(contains: (string, string) -> bool, v: Value, d: Data)
    requires forall s :: contains(s, s)
    requires TextLeaves(v, s => '%' !in s) && Matches(v, d)
    ensures WhereMatches(contains, Translate(v), d)
  {
    forall s | '%' !in s ensures StillFound(contains, s) {
      NothingToRemove(s);
    }
    LeavesImply(v, s => '%' !in s, s => StillFound(contains, s));
    MatchSurvivesIff(contains, v, d);
  }

  // ----- With `contains` as the substring test -----

  predicate Occurs(s: string, part: string, i: nat) {
    i + |part| <= |s| && s[i..i + |part|] == part
  }

  ghost predicate Substring(s: string, part: string) {
    exists i: nat :: Occurs(s, part, i)
  }

  /** No percent sign stands between two other characters. */
  ghost predicate PercentsOutside(s: string) {
    forall i, j, k :: 0 <= i < j < k < |s| && s[i] != '%' && s[k] != '%' ==> s[j] != '%'
  }

  lemma {:induction false} WithoutConcat(a: string, b: string)
    ensures WithoutPercents(a + b) == WithoutPercents(a) + WithoutPercents(b)
  {
    if a == [] {
      assert a + b == b;
    } else {
      assert (a + b)[1..] == a[1..] + b;
      WithoutConcat(a[1..], b);
    }
  }

  ghost predicate AllPercents(s: string) {
    forall k :: 0 <= k < |s| ==> s[k] == '%'
  }

  lemma {:induction false} WithoutChars(s: string)
    ensures '%' !in WithoutPercents(s)
    ensures WithoutPercents(s) == [] <==> AllPercents(s)
  {
    if s != [] {
      WithoutChars(s[1..]);
      if AllPercents(s[1..]) && s[0] == '%' {
        forall k | 0 <= k < |s| ensures s[k] == '%' {
          assert k > 0 ==> s[k] == s[1..][k - 1];
        }
      }
    }
  }

  lemma ThreeParts(a: string, b: string, c: string)
    ensures WithoutPercents(a + b + c) == WithoutPercents(a) + WithoutPercents(b) + WithoutPercents(c)
  {
    WithoutConcat(a + b, c);
    WithoutConcat(a, b);
  }

  lemma OutsideMeansSubstring(a: string, b: string, c: string)
    requires AllPercents(a) && AllPercents(c) && '%' !in b
    ensures Substring(a + b + c, WithoutPercents(a + b + c))
  {
    ThreeParts(a, b, c);
    WithoutChars(a);
    WithoutChars(c);
    NothingToRemove(b);
    assert [] + b + [] == b;
    assert Occurs(a + b + c, b, |a|);
  }

  /** The ends of the part of a string outside of which there are only percent signs. */
  lemma Trim(s: string) returns (i: nat, j: nat)
    ensures i <= j <= |s|
    ensures forall k :: 0 <= k < i || j <= k < |s| ==> s[k] == '%'
    ensures i < j ==> s[i] != '%' && s[j - 1] != '%'
  {
    i := 0;
    while i < |s| && s[i] == '%'
      invariant i <= |s| && forall k :: 0 <= k < i ==> s[k] == '%'
    {
      i := i + 1;
    }
    j := |s|;
    while i < j && s[j - 1] == '%'
      invariant i <= j <= |s| && forall k :: j <= k < |s| ==> s[k] == '%'
    {
      j := j - 1;
    }
  }

  lemma OccurrenceHasAllOthers(a: string, b: string, c: string)
    requires b == WithoutPercents(a + b + c)
    ensures '%' !in b && AllPercents(a) && AllPercents(c)
  {
    WithoutChars(a + b + c);
    ThreeParts(a, b, c);
    NothingToRemove(b);
    assert |WithoutPercents(a)| + |WithoutPercents(c)| == 0;
    WithoutChars(a);
    WithoutChars(c);
  }

  lemma PartsHavePercentsOutside(a: string, b: string, c: string)
    requires AllPercents(a) && AllPercents(c) && '%' !in b
    ensures PercentsOutside(a + b + c)
  {
    var s := a + b + c;
    forall k | 0 <= k < |s| ensures s[k] != '%' <==> |a| <= k < |a| + |b| {
      assert |a| <= k < |a| + |b| ==> s[k] == b[k - |a|];
      assert k >= |a| + |b| ==> s[k] == c[k - |a| - |b|];
    }
  }

  lemma SubstringHasPercentsOutside(s: string, i: nat)
    requires Occurs(s, WithoutPercents(s), i)
    ensures PercentsOutside(s)
  {
    var part := WithoutPercents(s);
    var a, c := s[..i], s[i + |part|..];
    assert s == a + part + c;
    OccurrenceHasAllOthers(a, part, c);
    PartsHavePercentsOutside(a, part, c);
  }

  /** The parts of a trimmed string: percent signs, none, percent signs. */
  lemma TrimmedParts(s: string, i: nat, j: nat)
    requires PercentsOutside(s) && i <= j <= |s|
    requires forall k :: 0 <= k < i || j <= k < |s| ==> s[k] == '%'
    requires i < j ==> s[i] != '%' && s[j - 1] != '%'
    ensures AllPercents(s[..i]) && AllPercents(s[j..]) && '%' !in s[i..j]
  {
    forall k | 0 <= k < j - i ensures s[i..j][k] != '%' {
      assert s[i..j][k] == s[i + k];
    }
  }

  lemma TrimmedIsSubstring(s: string, i: nat, j: nat)
    requires i <= j <= |s| && AllPercents(s[..i]) && AllPercents(s[j..]) && '%' !in s[i..j]
    ensures Substring(s, WithoutPercents(s))
  {
    assert s == s[..i] + s[i..j] + s[j..];
    OutsideMeansSubstring(s[..i], s[i..j], s[j..]);
  }

  lemma SubstringIff(s: string)
    ensures Substring(s, WithoutPercents(s)) <==> PercentsOutside(s)
  {
    if Substring(s, WithoutPercents(s)) {
      var i: nat :| Occurs(s, WithoutPercents(s), i);
      SubstringHasPercentsOutside(s, i);
    }
    if PercentsOutside(s) {
      var i, j := Trim(s);
      TrimmedParts(s, i, j);
      TrimmedIsSubstring(s, i, j);
    }
  }

  /**
   A record that matches the query matches its translation, read as a substring test, if and only if no
   percent sign of its strings stands between two other characters.
   */
  lemma MatchSurvivesIffPercentsOutside(v: Value, d: Data)
    requires Matches(v, d)
    ensures WhereMatches((s, part) => Substring(s, part), Translate(v), d) <==> TextLeaves(v, s => PercentsOutside(s))
  {
    var contains := (s, part) => Substring(s, part);
    MatchSurvivesIff(contains, v, d);
    forall s ensures StillFound(contains, s) <==> PercentsOutside(s) {
      SubstringIff(s);
    }
    SameLeaves(v, s => StillFound(contains, s), s => PercentsOutside(s));
  }

  /** A query for "a%b" does not find the record that holds it. */
  lemma InnerPercentLosesItsMatch()
    ensures Matches(Text("a%b"), TextData("a%b"))
    ensures !WhereMatches((s, part) => Substring(s, part), Translate(Text("a%b")), TextData("a%b"))
  {
    var s := "a%b";
    MatchSurvivesIffPercentsOutside(Text(s), TextData(s));
    assert s[0] != '%' && s[1] == '%' && s[2] != '%';
  }

  /** What a filter asks for: each character of the text but the percent signs, in order. */
  lemma {:induction false} OnlyPercentsGo(a: string, c: char, b: string)
    ensures WithoutPercents(a + [c] + b) == WithoutPercents(a) + (if c == '%' then [] else [c]) + WithoutPercents(b)
  {
    WithoutConcat(a + [c], b);
    WithoutConcat(a, [c]);
  }

  /** A text becomes a `contains` exactly if it holds one of the two characters; all else is asked for as it is. */
  lemma TranslationOf(v: Value)
    ensures Translate(v).Contains? <==> v.Text? && ('%' in v.text || '_' in v.text)
    ensures Translate(v).Equals? ==> Translate(v).value == v
    ensures Translate(v).IsNull? <==> v.Null?
    ensures Translate(v).In? <==> v.List?
    ensures v.List? ==> Translate(v).items == v.items
    ensures Translate(v).All? <==> v.Params?
    ensures v.Params? ==> Translate(v).fields.Keys == v.fields.Keys
  {
  }

  /**
   A string keeps its meaning for all data if and only if it has neither % nor _, whenever
   `contains` accepts at least the strings that begin with the part.
   */
  lemma TextKeepsMeaningIff(contains: (string, string) -> bool, s: string)
    requires forall part: string, rest: string :: contains(part + rest, part)
    ensures (forall d :: WhereMatches(contains, Translate(Text(s)), d) <==> Matches(Text(s), d))
            <==> '%' !in s && '_' !in s
  {
    if HasWildcard(s) {
      var part := WithoutPercents(s);
      var one, two := TextData(part + "x"), TextData(part + "xx");
      assert contains(part + "x", part) && contains(part + "xx", part);
      assert |part + "x"| != |part + "xx"|;
      var other := if one == TextData(s) then two else one;
      assert WhereMatches(contains, Translate(Text(s)), other);
      assert !Matches(Text(s), other);
      assert !(WhereMatches(contains, Translate(Text(s)), other) <==> Matches(Text(s), other));
    }
  }

  /** parseWhere: fills the filter field by field, in whatever order the fields come. */
  method ParseWhere(params: map<string, Value>) returns (where: map<string, Where>)
    ensures All(where) == Translate(Params(params))
    decreases Params(params)
  {
    where := map[];
    var todo := params.Keys;
    while todo != {}
      invariant todo <= params.Keys
      invariant where == map key | key in params && key !in todo :: Translate(params[key])
      decreases todo
    {
      var key :| key in todo;
      var value := params[key];
      if value.Null? {
        where := where[key := IsNull];
      } else if value.Params? {
        var nested := ParseWhere(value.fields);
        where := where[key := All(nested)];
      } else if value.List? {
        where := where[key := In(value.items)];
      } else if value.Text? && ('%' in value.text || '_' in value.text) {
        where := where[key := Contains(WithoutPercents(value.text))];
      } else {
        where := where[key := Equals(value)];
      }
      todo := todo - {key};
    }
  }
}
