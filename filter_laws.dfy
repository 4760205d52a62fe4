/** Properties of the filter evaluator: the fail-closed policy of the leaf rules, how the
    operations of one kind relate to each other, the algebra of `and` / `or`, and what
    `filterMessages` keeps. */
module FilterLaws {
  import opened MessageFilter

  /** A leaf condition, as opposed to a combinator. */
  predicate IsLeaf(f: Filter) {
    !f.Or? && !f.And?
  }

  /** The message holds, under the leaf's field, a value of the runtime type its rule accepts. */
  predicate FieldFits(f: Filter, message: Message)
    requires IsLeaf(f)
  {
    f.field in message &&
    match f
    case StringFilter(_, _, _) => message[f.field].Str?
    case NumberFilter(_, _, _) => message[f.field].Num?
    case BooleanFilter(_, _, _) => message[f.field].Bool?
    case DateFilter(_, _, _) => message[f.field].Str? || message[f.field].Date?
  }

  /** The operations a leaf's rule recognises. */
  function KnownOperations(f: Filter): set<string>
    requires IsLeaf(f)
  {
    match f
    case StringFilter(_, _, _) => StringOperations
    case NumberFilter(_, _, _) => NumberOperations
    case BooleanFilter(_, _, _) => BooleanOperations
    case DateFilter(_, _, _) => DateOperations
  }

  /** A leaf whose field is absent or of the wrong type fails, whatever its operation. */
  lemma MismatchedFieldFails(f: Filter, message: Message, parse: Parser)
    requires IsLeaf(f) && !FieldFits(f, message)
    ensures !Eval(f, message, parse)
  {
  }

  /** A leaf whose operation its rule does not recognise fails on every message. */
  lemma UnknownOperationFails(f: Filter, message: Message, parse: Parser)
    requires IsLeaf(f) && f.operation !in KnownOperations(f)
    ensures !Eval(f, message, parse)
  {
  }

  /** With an empty value, `startsWith` and `contains` accept every string field, while
      `endsWith` accepts only the empty string. */
  lemma EmptyStringValue(field: string, message: Message, parse: Parser)
    requires field in message && message[field].Str?
    ensures Eval(StringFilter(field, "startsWith", ""), message, parse)
    ensures Eval(StringFilter(field, "contains", ""), message, parse)
    ensures Eval(StringFilter(field, "endsWith", ""), message, parse) <==> message[field].str == ""
  {
  }

  /** On a string field, equality implies `startsWith`, `contains` and, for a non-empty
      value, `endsWith` with the same value. */
  lemma StringEqImpliesOthers(field: string, value: string, message: Message, parse: Parser)
    requires field in message && message[field].Str?
    requires Eval(StringFilter(field, "eq", value), message, parse)
    ensures Eval(StringFilter(field, "startsWith", value), message, parse)
    ensures Eval(StringFilter(field, "contains", value), message, parse)
    ensures value != [] ==> Eval(StringFilter(field, "endsWith", value), message, parse)
  {
  }

  /** On a string field, a value that the field starts with, or (non-empty) ends with, is
      also one that it contains. */
  lemma StringAffixImpliesContains(field: string, value: string, message: Message, parse: Parser)
    requires field in message && message[field].Str?
    ensures Eval(StringFilter(field, "startsWith", value), message, parse) ==>
      Eval(StringFilter(field, "contains", value), message, parse)
    ensures Eval(StringFilter(field, "endsWith", value), message, parse) ==>
      Eval(StringFilter(field, "contains", value), message, parse)
  {
  }

  /** On a numeric field the five number operations are the usual total order: `gt` and
      `lte` are complements, so are `lt` and `gte`, and `eq` is `gte` and `lte` together. */
  lemma NumberOperationsTotalOrder(field: string, value: real, message: Message, parse: Parser)
    requires field in message && message[field].Num?
    ensures Eval(NumberFilter(field, "gt", value), message, parse) != Eval(NumberFilter(field, "lte", value), message, parse)
    ensures Eval(NumberFilter(field, "lt", value), message, parse) != Eval(NumberFilter(field, "gte", value), message, parse)
    ensures Eval(NumberFilter(field, "eq", value), message, parse) <==>
      Eval(NumberFilter(field, "gte", value), message, parse) && Eval(NumberFilter(field, "lte", value), message, parse)
  {
  }

  /** On a date field whose instant and whose condition's instant both parse, exactly one of
      `eq`, `after` and `before` holds; when either fails to parse, none of them does. */
  lemma DateOperationsTrichotomy(field: string, value: DateArg, message: Message, parse: Parser)
    requires field in message && (message[field].Str? || message[field].Date?)
    ensures
      var eq := Eval(DateFilter(field, "eq", value), message, parse);
      var after := Eval(DateFilter(field, "after", value), message, parse);
      var before := Eval(DateFilter(field, "before", value), message, parse);
      if FieldInstant(message[field], parse).Some? && ArgInstant(value, parse).Some?
      then (eq || after || before) && !(eq && after) && !(eq && before) && !(after && before)
      else !eq && !after && !before
  {
  }

  /** Dates compare by instant: two spellings of one instant are equal under `eq`. */
  lemma DateEqualityByInstant(field: string, record: string, value: string, message: Message, parse: Parser)
    requires field in message && message[field] == Str(record)
    requires parse(record).Some? && parse(record) == parse(value)
    ensures Eval(DateFilter(field, "eq", IsoString(value)), message, parse)
  {
  }

  /** `and` of nothing holds and `or` of nothing fails, on every message. */
  lemma EmptyCombinators(message: Message, parse: Parser)
    ensures Eval(And([]), message, parse)
    ensures !Eval(Or([]), message, parse)
  {
  }

  /** A combinator over a single sub-filter means that sub-filter. */
  lemma SingletonCombinators(a: Filter, message: Message, parse: Parser)
    ensures Eval(And([a]), message, parse) == Eval(a, message, parse)
    ensures Eval(Or([a]), message, parse) == Eval(a, message, parse)
  {
    assert [a][0] == a;
  }

  /** Splitting the sub-filter list of `and` (or of `or`) into two parts and combining them
      with a nested `and` (`or`) changes nothing: nesting is flattening. */
  lemma CombinatorsFlatten(fs: seq<Filter>, gs: seq<Filter>, message: Message, parse: Parser)
    ensures Eval(And(fs + gs), message, parse) == (Eval(And(fs), message, parse) && Eval(And(gs), message, parse))
    ensures Eval(Or(fs + gs), message, parse) == (Eval(Or(fs), message, parse) || Eval(Or(gs), message, parse))
    ensures Eval(And(fs + gs), message, parse) == Eval(And([And(fs), And(gs)]), message, parse)
    ensures Eval(Or(fs + gs), message, parse) == Eval(Or([Or(fs), Or(gs)]), message, parse)
  {
    var ands, ors := [And(fs), And(gs)], [Or(fs), Or(gs)];
    assert ands[0] == And(fs) && ands[1] == And(gs);
    assert ors[0] == Or(fs) && ors[1] == Or(gs);
    var hs := fs + gs;
    assert forall i | 0 <= i < |fs| :: hs[i] == fs[i];
    assert forall i | 0 <= i < |gs| :: hs[|fs| + i] == gs[i];
    if Eval(Or(hs), message, parse) {
      var i :| 0 <= i < |hs| && Eval(hs[i], message, parse);
      if i >= |fs| {
        assert gs[i - |fs|] == hs[i];
      }
    }
  }

  /** `s` is `t` with some elements removed, the rest kept in their order. */
  ghost predicate IsSubsequence(s: seq<Message>, t: seq<Message>)
    decreases |t|
  {
    if s == [] then true
    else if t == [] then false
    else (s[0] == t[0] && IsSubsequence(s[1..], t[1..])) || IsSubsequence(s, t[1..])
  }

  /** `filterMessages` keeps an order-preserving selection of its input. */
  lemma {:induction false} FilterIsSubsequence(messages: seq<Message>, f: Filter, parse: Parser)
    ensures IsSubsequence(FilterMessages(messages, f, parse), messages)
    decreases |messages|
  {
    if messages != [] {
      FilterIsSubsequence(messages[1..], f, parse);
      var r := FilterMessages(messages, f, parse);
      if Eval(f, messages[0], parse) {
        assert r[1..] == FilterMessages(messages[1..], f, parse);
      }
    }
  }

  /** Each message occurs in the result as often as in the input when the filter accepts it,
      and not at all otherwise: nothing is duplicated or dropped beyond the rejected ones. */
  lemma {:induction false} FilterMultiplicity(messages: seq<Message>, f: Filter, parse: Parser, m: Message)
    ensures multiset(FilterMessages(messages, f, parse))[m] ==
      if Eval(f, m, parse) then multiset(messages)[m] else 0
    decreases |messages|
  {
    if messages != [] {
      FilterMultiplicity(messages[1..], f, parse, m);
      assert messages == [messages[0]] + messages[1..];
    }
  }

  /** Filtering a concatenation filters each part: messages are judged one at a time. */
  lemma {:induction false} FilterDistributes(ms: seq<Message>, ns: seq<Message>, f: Filter, parse: Parser)
    ensures FilterMessages(ms + ns, f, parse) == FilterMessages(ms, f, parse) + FilterMessages(ns, f, parse)
    decreases |ms|
  {
    if ms != [] {
      assert (ms + ns)[1..] == ms[1..] + ns;
      FilterDistributes(ms[1..], ns, f, parse);
    } else {
      assert ms + ns == ns;
    }
  }

  /** Filtering by `f` and then by `g` is filtering by `and([f, g])`. */
  lemma {:induction false} FilterComposes(messages: seq<Message>, f: Filter, g: Filter, parse: Parser)
    ensures FilterMessages(FilterMessages(messages, f, parse), g, parse) == FilterMessages(messages, And([f, g]), parse)
    decreases |messages|
  {
    if messages != [] {
      FilterComposes(messages[1..], f, g, parse);
      var m := messages[0];
      assert Eval(And([f, g]), m, parse) == (Eval(f, m, parse) && Eval(g, m, parse)) by {
        assert [f, g][0] == f && [f, g][1] == g;
      }
      var rest := FilterMessages(messages[1..], f, parse);
      if Eval(f, m, parse) {
        assert ([m] + rest)[1..] == rest;
      }
    }
  }

  /** Filtering twice by the same filter is filtering once. */
  lemma {:induction false} FilterIdempotent(messages: seq<Message>, f: Filter, parse: Parser)
    ensures FilterMessages(FilterMessages(messages, f, parse), f, parse) == FilterMessages(messages, f, parse)
    decreases |messages|
  {
    if messages != [] {
      FilterIdempotent(messages[1..], f, parse);
      var rest := FilterMessages(messages[1..], f, parse);
      if Eval(f, messages[0], parse) {
        assert ([messages[0]] + rest)[1..] == rest;
      }
    }
  }

  /** A filter that holds everywhere keeps every message; one that holds nowhere keeps none. */
  lemma {:induction false} FilterExtremes(messages: seq<Message>, parse: Parser)
    ensures FilterMessages(messages, And([]), parse) == messages
    ensures FilterMessages(messages, Or([]), parse) == []
    decreases |messages|
  {
    if messages != [] {
      FilterExtremes(messages[1..], parse);
      assert [messages[0]] + messages[1..] == messages;
    }
  }

  /** Records aged 20, 30 and 40 under `age gte 30` leave the last two. */
  lemma AgeScenario(parse: Parser)
    ensures
      var m20, m30, m40 := map["age" := Num(20.0)], map["age" := Num(30.0)], map["age" := Num(40.0)];
      FilterMessages([m20, m30, m40], NumberFilter("age", "gte", 30.0), parse) == [m30, m40]
  {
    var m20, m30, m40 := map["age" := Num(20.0)], map["age" := Num(30.0)], map["age" := Num(40.0)];
    var f := NumberFilter("age", "gte", 30.0);
    assert !Eval(f, m20, parse) && Eval(f, m30, parse) && Eval(f, m40, parse);
    assert [m20, m30, m40][1..] == [m30, m40];
    assert [m30, m40][1..] == [m40];
    assert FilterMessages([m40], f, parse) == [m40];
  }

  /** Alice, aged 17, passes `name startsWith "A"` but fails its `and` with `age gt 18`. */
  lemma AliceScenario(parse: Parser)
    ensures
      var alice := map["name" := Str("Alice"), "age" := Num(17.0)];
      var f := And([StringFilter("name", "startsWith", "A"), NumberFilter("age", "gt", 18.0)]);
      Eval(StringFilter("name", "startsWith", "A"), alice, parse) && !Eval(f, alice, parse)
  {
    var alice := map["name" := Str("Alice"), "age" := Num(17.0)];
    var fs := [StringFilter("name", "startsWith", "A"), NumberFilter("age", "gt", 18.0)];
    assert alice["name"].str[..1] == "A";
    assert !Eval(fs[1], alice, parse);
  }

  /** An inactive record with score 150 passes `active eq true` or `score gte 100`. */
  lemma ScoreScenario(parse: Parser)
    ensures
      var m := map["active" := Bool(false), "score" := Num(150.0)];
      Eval(Or([BooleanFilter("active", "eq", true), NumberFilter("score", "gte", 100.0)]), m, parse)
  {
    var fs := [BooleanFilter("active", "eq", true), NumberFilter("score", "gte", 100.0)];
    assert fs[1] == NumberFilter("score", "gte", 100.0);
  }
}
