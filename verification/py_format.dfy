/** The part of Python's `str.format` that positional templates use:
    `{{` and `}}` stand for literal braces and `{k}` for the `k`-th argument.
    Every other replacement field is reported as an error. */
module PyFormat {
  import opened Results
  import opened Text
  import opened Digits

  datatype FormatError =
    | UnmatchedOpenBrace          // Python: "expected '}' before end of string"
    | SingleCloseBrace            // Python: "Single '}' encountered in format string"
    | UnsupportedField(field: string)
    | ArgumentIndexOutOfRange(index: nat)

  predicate BraceFree(s: string) {
    '{' !in s && '}' !in s
  }

  /** `template.format(*args)`. */
  function Format(template: string, args: seq<string>): (r: Result<string, FormatError>)
    ensures BraceFree(template) ==> r == Ok(template)
    decreases |template|
  {
    if |template| == 0 then Ok([])
    else if template[0] == '{' && |template| >= 2 && template[1] == '{' then
      Prepend("{", Format(template[2..], args))
    else if template[0] == '{' then
      match Find(template, "}")
      case None => Err(UnmatchedOpenBrace)
      case Some(k) =>
        assert template[k..k + 1] == "}";
        var field := template[1..k];
        if |field| == 0 || !AllDigits(field) then Err(UnsupportedField(field))
        else if Value(field) >= |args| then Err(ArgumentIndexOutOfRange(Value(field)))
        else Prepend(args[Value(field)], Format(template[k + 1..], args))
    else if template[0] == '}' && |template| >= 2 && template[1] == '}' then
      Prepend("}", Format(template[2..], args))
    else if template[0] == '}' then Err(SingleCloseBrace)
    else
      assert template == [template[0]] + template[1..];
      Prepend([template[0]], Format(template[1..], args))
  }

  /** Text without braces passes through formatting unchanged. */
  lemma FormatBraceFreePrefix(a: string, rest: string, args: seq<string>)
    requires BraceFree(a)
    ensures Format(a + rest, args) == Prepend(a, Format(rest, args))
  {
    FormatEscaped(a, rest, args);
  }

  /** A one-digit positional field `{k}` at the start of the template is
      replaced by the `k`-th argument, which is inserted verbatim. */
  lemma FormatDigitField(t: string, k: nat, args: seq<string>)
    requires k < 10 && k < |args|
    requires |t| >= 3 && t[0] == '{' && t[1] == DigitChar(k) && t[2] == '}'
    ensures Format(t, args) == Prepend(args[k], Format(t[3..], args))
  {
    assert OccursAt(t, "}", 2);
    assert !OccursAt(t, "}", 0) && !OccursAt(t, "}", 1);
    var field := t[1..2];
    assert field == [DigitChar(k)];
    assert Value(field) == k by {
      assert field[..0] == [];
    }
  }

  /** `{{` and `}}` turn back into the single brace. Doubling every brace is
      the inverse of formatting without arguments. */
  function Escape(s: string): (r: string)
    ensures BraceFree(s) ==> r == s
    ensures |r| >= |s|
    decreases |s|
  {
    if |s| == 0 then []
    else
      assert s == [s[0]] + s[1..];
      (if s[0] == '{' || s[0] == '}' then [s[0], s[0]] else [s[0]]) + Escape(s[1..])
  }

  /** One step of formatting over a character that is not a brace, or over a doubled brace. */
  lemma FormatStep(t: string, args: seq<string>)
    requires |t| > 0
    ensures t[0] != '{' && t[0] != '}' ==> Format(t, args) == Prepend([t[0]], Format(t[1..], args))
    ensures |t| >= 2 && t[1] == t[0] && (t[0] == '{' || t[0] == '}') ==>
              Format(t, args) == Prepend([t[0]], Format(t[2..], args))
  {
  }

  /** Formatting an escaped text reproduces the text. */
  lemma {:induction false} FormatEscaped(s: string, rest: string, args: seq<string>)
    ensures Format(Escape(s) + rest, args) == Prepend(s, Format(rest, args))
    decreases |s|
  {
    if |s| == 0 {
      assert Escape(s) + rest == rest;
      match Format(rest, args)
      case Ok(v) => assert s + v == v;
      case Err(e) =>
    } else {
      var head := if s[0] == '{' || s[0] == '}' then [s[0], s[0]] else [s[0]];
      var tail := Escape(s[1..]) + rest;
      var t := Escape(s) + rest;
      assert t == head + tail;
      assert t[|head|..] == tail;
      FormatStep(t, args);
      assert Format(t, args) == Prepend([s[0]], Format(tail, args));
      FormatEscaped(s[1..], rest, args);
      PrependAppend([s[0]], s[1..], Format(rest, args));
      assert [s[0]] + s[1..] == s;
    }
  }
}
