/** The filter-expression evaluator: typed leaf conditions on one field of a message, the
    `and` / `or` combinators over a list of sub-filters, the dispatch on a filter's kind
    (`runner`), and `filterMessages`, which keeps the messages a filter accepts. */
module MessageFilter {
  import JsString

  datatype Option<+T> = None | Some(value: T)

  /** The value a message holds under one field name: the four runtime types the rules test
      for. A date carries its instant in milliseconds, or None for an invalid date. */
  datatype Value =
    | Str(str: string)
    | Num(num: real)
    | Bool(flag: bool)
    | Date(time: Option<int>)

  /** A message maps field names to values; an absent key is JavaScript's `undefined`. */
  type Message = map<string, Value>

  /** `new Date(text).getTime()` for a string: the parsed instant, or None for NaN. Date
      parsing is not part of this model, so the evaluator takes it as a parameter. */
  type Parser = string -> Option<int>

  /** The value of a date condition: an ISO-8601 string or a date object. */
  datatype DateArg = IsoString(text: string) | DateObject(instant: Option<int>)

  /** A filter expression. Operations are kept as open strings, so that a leaf may carry an
      operation outside its kind's recognised set. */
  datatype Filter =
    | StringFilter(field: string, operation: string, text: string)
    | NumberFilter(field: string, operation: string, number: real)
    | BooleanFilter(field: string, operation: string, expected: bool)
    | DateFilter(field: string, operation: string, date: DateArg)
    | Or(filters: seq<Filter>)
    | And(filters: seq<Filter>)

  const StringOperations: set<string> := {"eq", "startsWith", "endsWith", "contains"}
  const NumberOperations: set<string> := {"eq", "gt", "gte", "lt", "lte"}
  const BooleanOperations: set<string> := {"eq"}
  const DateOperations: set<string> := {"eq", "after", "before"}

  /** The `string` rule. A field that is absent or not a string fails the condition, and so
      does an operation the rule does not know. `endsWith` with an empty value compares the
      whole field with "", so it holds only for an empty field. */
  function StringRule(field: string, operation: string, value: string, message: Message): (r: bool)
    ensures r ==> field in message && message[field].Str?
    ensures r ==> operation in StringOperations
    ensures field in message && message[field].Str? ==>
      var s := message[field].str;
      && (operation == "eq" ==> (r <==> s == value))
      && (operation == "startsWith" ==> (r <==> JsString.IsPrefix(value, s)))
      && (operation == "endsWith" ==>
            (r <==> if value == [] then s == [] else JsString.IsSuffix(value, s)))
      && (operation == "contains" ==> (r <==> JsString.IsSubstring(value, s)))
  {
    if field !in message || !message[field].Str? then false
    else
      var msgValue := message[field].str;
      if operation == "eq" then msgValue == value
      else if operation == "startsWith" then
        JsString.SliceHeadIsPrefix(msgValue, value);
        JsString.Slice(msgValue, 0, |value|) == value
      else if operation == "endsWith" then
        JsString.SliceTailIsSuffix(msgValue, value);
        JsString.SliceFrom(msgValue, -|value|) == value
      else if operation == "contains" then
        JsString.IncludesIsSubstring(msgValue, value);
        JsString.Includes(msgValue, value)
      else false
  }

  /** The `number` rule: a numeric field compared with the value; any other field, and any
      unknown operation, fails. */
  function NumberRule(field: string, operation: string, value: real, message: Message): (r: bool)
    ensures r ==> field in message && message[field].Num?
    ensures r ==> operation in NumberOperations
    ensures field in message && message[field].Num? ==>
      var x := message[field].num;
      && (operation == "eq" ==> (r <==> x == value))
      && (operation == "gt" ==> (r <==> x > value))
      && (operation == "gte" ==> (r <==> x >= value))
      && (operation == "lt" ==> (r <==> x < value))
      && (operation == "lte" ==> (r <==> x <= value))
  {
    if field !in message || !message[field].Num? then false
    else
      var msgValue := message[field].num;
      if operation == "eq" then msgValue == value
      else if operation == "gt" then msgValue > value
      else if operation == "gte" then msgValue >= value
      else if operation == "lt" then msgValue < value
      else if operation == "lte" then msgValue <= value
      else false
  }

  /** The `boolean` rule: only `eq`, and only on a boolean field. */
  function BooleanRule(field: string, operation: string, value: bool, message: Message): (r: bool)
    ensures r <==> field in message && message[field] == Bool(value) && operation == "eq"
  {
    if field !in message || !message[field].Bool? then false
    else if operation == "eq" then message[field].flag == value
    else false
  }

  /** `new Date(v).getTime()` for a field value the date rule accepts. */
  function FieldInstant(v: Value, parse: Parser): Option<int>
    requires v.Str? || v.Date?
  {
    if v.Str? then parse(v.str) else v.time
  }

  /** `new Date(value).getTime()` for the value of a date condition. */
  function ArgInstant(d: DateArg, parse: Parser): Option<int> {
    match d
    case IsoString(text) => parse(text)
    case DateObject(instant) => instant
  }

  /** `===`, `<` and `>` on two `getTime()` results: every comparison with NaN is false. */
  function SameTime(a: Option<int>, b: Option<int>): bool {
    a.Some? && b.Some? && a.value == b.value
  }

  function EarlierTime(a: Option<int>, b: Option<int>): bool {
    a.Some? && b.Some? && a.value < b.value
  }

  function LaterTime(a: Option<int>, b: Option<int>): bool {
    a.Some? && b.Some? && a.value > b.value
  }

  /** The `date` rule. The field must hold a string or a date; both sides become instants
      before they are compared, and an instant that does not parse fails every operation.
      As in the source, `after` holds when the message's instant is EARLIER than the value's
      and `before` when it is later. */
  function DateRule(field: string, operation: string, value: DateArg, message: Message, parse: Parser): (r: bool)
    ensures r ==> field in message && (message[field].Str? || message[field].Date?)
    ensures r ==> operation in DateOperations
    ensures field in message && (message[field].Str? || message[field].Date?) ==>
      var a, b := FieldInstant(message[field], parse), ArgInstant(value, parse);
      && (r ==> a.Some? && b.Some?)
      && (a.Some? && b.Some? ==>
            && (operation == "eq" ==> (r <==> a.value == b.value))
            && (operation == "after" ==> (r <==> a.value < b.value))
            && (operation == "before" ==> (r <==> a.value > b.value)))
  {
    if field !in message || !(message[field].Str? || message[field].Date?) then false
    else
      var msgValue := message[field];
      if operation == "eq" then SameTime(FieldInstant(msgValue, parse), ArgInstant(value, parse))
      else if operation == "after" then EarlierTime(FieldInstant(msgValue, parse), ArgInstant(value, parse))
      else if operation == "before" then LaterTime(FieldInstant(msgValue, parse), ArgInstant(value, parse))
      else false
  }

  /** The meaning of a filter on one message, with the combinators evaluated in full:
      `or` holds when some sub-filter holds, `and` when every sub-filter holds. */
  function Eval(f: Filter, message: Message, parse: Parser): bool
    decreases f
  {
    match f
    case StringFilter(field, operation, text) => StringRule(field, operation, text, message)
    case NumberFilter(field, operation, number) => NumberRule(field, operation, number, message)
    case BooleanFilter(field, operation, expected) => BooleanRule(field, operation, expected, message)
    case DateFilter(field, operation, date) => DateRule(field, operation, date, message, parse)
    case Or(filters) => exists i | 0 <= i < |filters| :: Eval(filters[i], message, parse)
    case And(filters) => forall i | 0 <= i < |filters| :: Eval(filters[i], message, parse)
  }

  /** `runner`: dispatch on the kind of the filter to its rule. */
  method Run(f: Filter, message: Message, parse: Parser) returns (r: bool)
    ensures r == Eval(f, message, parse)
    decreases f, 1
  {
    match f
    case StringFilter(field, operation, text) =>
      r := StringRule(field, operation, text, message);
    case NumberFilter(field, operation, number) =>
      r := NumberRule(field, operation, number, message);
    case BooleanFilter(field, operation, expected) =>
      r := BooleanRule(field, operation, expected, message);
    case DateFilter(field, operation, date) =>
      r := DateRule(field, operation, date, message, parse);
    case Or(_) =>
      r := RunOr(f, message, parse);
    case And(_) =>
      r := RunAnd(f, message, parse);
  }

  /** The `or` rule: runs the sub-filters in order and stops at the first that holds. */
  method RunOr(f: Filter, message: Message, parse: Parser) returns (r: bool)
    requires f.Or?
    ensures r == Eval(f, message, parse)
    decreases f, 0
  {
    var filters := f.filters;
    for i := 0 to |filters|
      invariant forall j :: 0 <= j < i ==> !Eval(filters[j], message, parse)
    {
      var result := Run(filters[i], message, parse);
      if result {
        return true;
      }
    }
    return false;
  }

  /** The `and` rule: runs the sub-filters in order and stops at the first that fails. */
  method RunAnd(f: Filter, message: Message, parse: Parser) returns (r: bool)
    requires f.And?
    ensures r == Eval(f, message, parse)
    decreases f, 0
  {
    var filters := f.filters;
    for i := 0 to |filters|
      invariant forall j :: 0 <= j < i ==> Eval(filters[j], message, parse)
    {
      var result := Run(filters[i], message, parse);
      if !result {
        return false;
      }
    }
    return true;
  }

  /** `filterMessages`: the messages the filter accepts, in their original order. */
  function FilterMessages(messages: seq<Message>, f: Filter, parse: Parser): (r: seq<Message>)
    ensures |r| <= |messages|
    ensures forall m :: m in r <==> m in messages && Eval(f, m, parse)
  {
    if messages == [] then []
    else
      var rest := FilterMessages(messages[1..], f, parse);
      if Eval(f, messages[0], parse) then [messages[0]] + rest else rest
  }
}
