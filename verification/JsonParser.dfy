/** The recursive descent parser that advances a position in its input. */
module JsonParser {
  import opened Bytes
  import opened JsonText
  import Values = JsonValue

  type Json = Values.Json

  datatype Result<T> = Done(value: T) | Failed(error: Error)

  lemma AheadSlices(input: Text, pos: nat, end: nat)
    requires pos <= end <= |input|
    ensures input[pos..][..end - pos] == input[pos..end] && input[pos..][end - pos..] == input[end..]
    ensures pos < |input| ==> input[pos..][0] == input[pos]
  {
  }

  class Parser {
    const input: Text
    var pos: nat

    constructor (raw: Text)
      ensures Valid() && Ahead() == raw && input == raw
    {
      input := raw;
      pos := 0;
    }

    ghost predicate Valid()
      reads this
    {
      pos <= |input|
    }

    /** The text still to be read. */
    ghost function Ahead(): (s: Text)
      requires Valid()
      reads this
      ensures |s| == |input| - pos
    {
      input[pos..]
    }

    /** The method did what the function on the text ahead says, and stopped
        where it stops. */
    ghost predicate Read<T>(result: Result<T>, parsed: Parsed<T>)
      reads this
    {
      match parsed
      case Ok(value, rest) => result == Done(value) && Valid() && Ahead() == rest
      case Err(error) => result == Failed(error)
    }

    predicate AtEnd()
      reads this
    {
      pos >= |input|
    }

    method Spaces()
      requires Valid()
      modifies this`pos
      ensures Valid() && old(pos) <= pos && Ahead() == Skip(old(Ahead()))
    {
      while !AtEnd() && (input[pos] == ' ' || input[pos] == '\t' || input[pos] == '\n' || input[pos] == '\r')
        invariant Valid() && old(pos) <= pos
        invariant Skip(Ahead()) == Skip(old(Ahead()))
        decreases |input| - pos
      {
        assert Ahead()[1..] == input[pos + 1..];
        pos := pos + 1;
      }
    }

    method Word(word: Text, value: Json) returns (result: Result<Json>)
      requires Valid() && word != []
      modifies this`pos
      ensures Read(result, Literal(old(Ahead()), word, value))
    {
      if word <= input[pos..] {
        assert Ahead()[|word|..] == input[pos + |word|..];
        pos := pos + |word|;
        return Done(value);
      }
      return Failed(InvalidLiteral);
    }

    method Unquoted(escape: Text) returns (result: Result<Text>)
      requires |escape| >= 2 && escape[0] == '\\' && |escape| == EscapeLength(escape)
      ensures match Unquote(escape) case Ok(text, _) => result == Done(text) case Err(error) => result == Failed(error)
    {
      if |escape| == 2 && escape[1] == '/' {
        return Done("/");
      }
      if escape == "\\\\" {
        return Done("\\");
      }
      if escape == "\\\"" {
        return Done("\"");
      }
      if |escape| == 2 {
        match escape[1] {
          case 'b' => return Done([8 as char]);
          case 'f' => return Done([12 as char]);
          case 'n' => return Done("\n");
          case 'r' => return Done("\r");
          case 't' => return Done("\t");
          case _ =>
        }
      }
      if |escape| == 6 && escape[1] == 'u' {
        var digits := escape[2..];
        if exists i :: 0 <= i < 4 && !IsHex(digits[i]) {
          return Failed(BadHex);
        }
        return Done(Utf8(Code(digits)));
      }
      return Failed(BadEscape);
    }

    /** At a backslash. */
    method Escaped() returns (result: Result<Text>)
      requires Valid() && !AtEnd() && input[pos] == '\\'
      modifies this`pos
      ensures Read(result, Escape(old(Ahead())))
    {
      var end := pos + 2;
      if end > |input| {
        return Failed(BadEscape);
      }
      if input[pos + 1] == 'u' {
        end := pos + 6;
        if end > |input| {
          return Failed(BadUnicodeEscape);
        }
      }
      AheadSlices(input, pos, end);
      var unquoted := Unquoted(input[pos..end]);
      if unquoted.Done? {
        pos := end;
      }
      return unquoted;
    }

    /** At an opening quote. */
    method String() returns (result: Result<Text>)
      requires Valid() && !AtEnd()
      modifies this`pos
      ensures Read(result, Chars([], old(Ahead())[1..]))
    {
      ghost var goal := Chars([], Ahead()[1..]);
      AheadSlices(input, pos, pos + 1);
      pos := pos + 1;
      var done := [];
      while true
        invariant Valid() && goal == Chars(done, Ahead())
        decreases |input| - pos
      {
        if AtEnd() {
          return Failed(UnterminatedString);
        }
        var c := input[pos];
        AheadSlices(input, pos, pos + 1);
        if c == '"' {
          pos := pos + 1;
          return Done(done);
        }
        if c != '\\' {
          done := done + [c];
          pos := pos + 1;
          continue;
        }
        var unquoted := Escaped();
        if unquoted.Failed? {
          return Failed(unquoted.error);
        }
        done := done + unquoted.value;
      }
    }

    method IntLiteral(literal: Text) returns (isInt: bool)
      ensures isInt == IsIntLiteral(literal)
    {
      if literal == [] {
        return false;
      }
      var digits := literal;
      if digits[0] == '-' {
        digits := digits[1..];
      }
      if digits == [] {
        return false;
      }
      for i := 0 to |digits|
        invariant forall k :: 0 <= k < i ==> IsDigit(digits[k])
      {
        if digits[i] < '0' || digits[i] > '9' {
          return false;
        }
      }
      return true;
    }

    method Run()
      requires Valid()
      modifies this`pos
      ensures Valid() && pos == old(pos) + NumberRun(old(Ahead()))
    {
      while !AtEnd() && InNumber(input[pos])
        invariant Valid() && old(pos) <= pos
        invariant NumberRun(old(Ahead())) == pos - old(pos) + NumberRun(Ahead())
        decreases |input| - pos
      {
        assert Ahead()[1..] == input[pos + 1..];
        pos := pos + 1;
      }
    }

    method Number() returns (result: Result<Json>)
      requires Valid()
      modifies this`pos
      ensures Read(result, JsonText.Number(old(Ahead())))
    {
      var start := pos;
      Run();
      if pos == start {
        return Failed(InvalidNumber);
      }
      var literal := input[start..pos];
      assert literal == old(Ahead())[..pos - start] && Ahead() == old(Ahead())[pos - start..];
      var isInt := IntLiteral(literal);
      if isInt && IsInt64(IntOf(literal)) {
        return Done(Values.Int(IntOf(literal)));
      }
      if !IsFloat(literal) {
        return Failed(InvalidNumber);
      }
      return Done(Values.Double(literal));
    }

    method Value() returns (result: Result<Json>)
      requires Valid()
      modifies this`pos
      ensures Read(result, JsonText.Value(old(Ahead())))
      decreases |input| - pos, 2
    {
      Spaces();
      if AtEnd() {
        return Failed(UnexpectedEnd);
      }
      assert Ahead() == Skip(old(Ahead())) && Ahead()[0] == input[pos];
      match input[pos] {
        case '{' => result := Record();
        case '[' => result := List();
        case '"' =>
          var text := String();
          if text.Failed? {
            return Failed(text.error);
          }
          return Done(Values.Str(text.value));
        case 't' => result := Word("true", Values.Bool(true));
        case 'f' => result := Word("false", Values.Bool(false));
        case 'n' => result := Word("null", Values.Null);
        case _ => result := Number();
      }
    }

    method Key() returns (result: Result<Text>)
      requires Valid()
      modifies this`pos
      ensures Read(result, MemberKey(old(Ahead())))
    {
      Spaces();
      if AtEnd() || input[pos] != '"' {
        return Failed(ExpectedKey);
      }
      result := String();
      if result.Failed? {
        return;
      }
      Spaces();
      if AtEnd() || input[pos] != ':' {
        return Failed(ExpectedColon);
      }
      assert Ahead()[1..] == input[pos + 1..];
      pos := pos + 1;
    }

    method Separator(closing: Byte, unterminated: Error) returns (result: Result<bool>)
      requires Valid()
      modifies this`pos
      ensures Read(result, Comma(old(Ahead()), closing, unterminated))
    {
      Spaces();
      if AtEnd() {
        return Failed(unterminated);
      }
      assert Ahead()[0] == input[pos] && Ahead()[1..] == input[pos + 1..];
      if input[pos] == ',' {
        pos := pos + 1;
        return Done(true);
      }
      if input[pos] == closing {
        pos := pos + 1;
        return Done(false);
      }
      return Failed(ExpectedComma);
    }

    method Entry() returns (result: Result<Values.Entry>)
      requires Valid()
      modifies this`pos
      ensures Read(result, Member(old(Ahead())))
      decreases |input| - pos, 3
    {
      var key := Key();
      if key.Failed? {
        return Failed(key.error);
      }
      var value := Value();
      if value.Failed? {
        return Failed(value.error);
      }
      return Done((key.value, value.value));
    }

    /** At an opening brace. */
    method Record() returns (result: Result<Json>)
      requires Valid() && !AtEnd()
      modifies this`pos
      ensures Read(result, ObjectValue(old(Ahead())[1..]))
      decreases |input| - pos, 1
    {
      assert Ahead()[1..] == input[pos + 1..];
      pos := pos + 1;
      var record := new Values.Object();
      Spaces();
      if !AtEnd() && input[pos] == '}' {
        assert Ahead()[1..] == input[pos + 1..];
        pos := pos + 1;
        return Done(Values.Obj(record.Entries()));
      }
      result := Fields(record);
    }

    method Fields(record: Values.Object) returns (result: Result<Json>)
      requires Valid() && record.Valid()
      modifies this`pos, record
      ensures Read(result, Members(old(record.Entries()), old(Ahead())))
      decreases |input| - pos, 4
    {
      while true
        invariant Valid() && old(pos) <= pos && record.Valid()
        invariant Members(old(record.Entries()), old(Ahead())) == Members(record.Entries(), Ahead())
        decreases |input| - pos
      {
        var entry := Entry();
        if entry.Failed? {
          return Failed(entry.error);
        }
        record.Set(entry.value.0, entry.value.1);
        var more := Separator('}', UnterminatedObject);
        if more.Failed? {
          return Failed(more.error);
        }
        if !more.value {
          return Done(Values.Obj(record.Entries()));
        }
      }
    }

    /** At an opening bracket. */
    method List() returns (result: Result<Json>)
      requires Valid() && !AtEnd()
      modifies this`pos
      ensures Read(result, ArrayValue(old(Ahead())[1..]))
      decreases |input| - pos, 1
    {
      assert Ahead()[1..] == input[pos + 1..];
      pos := pos + 1;
      var list := [];
      Spaces();
      if !AtEnd() && input[pos] == ']' {
        assert Ahead()[1..] == input[pos + 1..];
        pos := pos + 1;
        return Done(Values.Arr(list));
      }
      while true
        invariant Valid() && old(pos) < pos
        invariant ArrayValue(old(Ahead())[1..]) == Items(list, Ahead())
        decreases |input| - pos
      {
        var entry := Value();
        if entry.Failed? {
          return Failed(entry.error);
        }
        list := list + [entry.value];
        var more := Separator(']', UnterminatedArray);
        if more.Failed? {
          return Failed(more.error);
        }
        if !more.value {
          return Done(Values.Arr(list));
        }
      }
    }
  }

  method DecodeOrdered(raw: Text) returns (result: Result<Json>)
    ensures match Decode(raw) case Ok(value, _) => result == Done(value) case Err(error) => result == Failed(error)
  {
    var parser := new Parser(raw);
    result := parser.Value();
    if result.Done? {
      parser.Spaces();
      if !parser.AtEnd() {
        result := Failed(TrailingCharacters);
      }
    }
  }
}
