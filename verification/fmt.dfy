/** Go's `fmt.Sprintf` for the formats the event-listener code uses: every
    `%` in the format begins a `%s` verb, and there is one string argument
    per verb, substituted verbatim. */
module Fmt {
  import opened Strings

  /** Every `%` in `format` is the start of a `%s` verb. */
  predicate OnlyStringVerbs(format: string)
    decreases |format|
  {
    if format == [] then true
    else if format[0] == '%' then |format| >= 2 && format[1] == 's' && OnlyStringVerbs(format[2..])
    else OnlyStringVerbs(format[1..])
  }

  /** `format` is a well-formed format string for exactly `n` string arguments. */
  predicate FormatFor(format: string, n: nat) {
    OnlyStringVerbs(format) && Count(format, '%') == n
  }

  function TotalLength(args: seq<string>): nat {
    if args == [] then 0 else |args[0]| + TotalLength(args[1..])
  }

  function Sprintf(format: string, args: seq<string>): (r: string)
    requires FormatFor(format, |args|)
    ensures |r| + 2 * |args| == |format| + TotalLength(args)
    decreases |format|
  {
    if format == [] then ""
    else if format[0] == '%' then
      var tail := format[2..];
      assert format[1..][1..] == tail;
      assert Count(format[1..], '%') == Count(tail, '%');
      args[0] + Sprintf(tail, args[1..])
    else
      [format[0]] + Sprintf(format[1..], args)
  }

  /** Prefixing verb-free text keeps a format well formed for the same arguments. */
  lemma {:induction false} FormatForLiteral(text: string, rest: string, n: nat)
    requires '%' !in text
    requires FormatFor(rest, n)
    ensures FormatFor(text + rest, n)
    decreases |text|
  {
    CountAppend(text, rest, '%');
    if text != [] {
      var tail := text[1..];
      assert text == [text[0]] + tail;
      FormatForLiteral(tail, rest, n);
      assert (text + rest)[1..] == tail + rest;
    } else {
      assert text + rest == rest;
    }
  }

  /** Text before the first verb is copied unchanged. */
  lemma {:induction false} SprintfLiteral(text: string, rest: string, args: seq<string>)
    requires '%' !in text
    requires FormatFor(rest, |args|)
    ensures FormatFor(text + rest, |args|)
    ensures Sprintf(text + rest, args) == text + Sprintf(rest, args)
    decreases |text|
  {
    FormatForLiteral(text, rest, |args|);
    if text == [] {
      assert text + rest == rest;
    } else {
      var c, tail := text[0], text[1..];
      assert '%' !in tail;
      SprintfLiteral(tail, rest, args);
      assert text + rest == [c] + (tail + rest);
      SprintfChar(c, tail + rest, args);
      assert [c] + (tail + Sprintf(rest, args)) == text + Sprintf(rest, args);
    }
  }

  /** One ordinary character is copied to the output. */
  lemma SprintfChar(c: char, rest: string, args: seq<string>)
    requires c != '%'
    requires FormatFor(rest, |args|)
    requires FormatFor([c] + rest, |args|)
    ensures Sprintf([c] + rest, args) == [c] + Sprintf(rest, args)
  {
    assert ([c] + rest)[1..] == rest;
  }

  /** A leading `%s` is replaced by the first argument. */
  lemma {:induction false} SprintfVerb(rest: string, arg: string, args: seq<string>)
    requires FormatFor(rest, |args|)
    ensures FormatFor("%s" + rest, |args| + 1)
    ensures Sprintf("%s" + rest, [arg] + args) == arg + Sprintf(rest, args)
  {
    var f := "%s" + rest;
    CountAppend("%s", rest, '%');
    assert forall i :: 2 <= i < |f| ==> f[i] == rest[i - 2];
    assert f[2..] == rest;
    assert ([arg] + args)[1..] == args;
  }

  /** Two verbs around a one-character literal: the arguments are joined by
      that character (the `"%s-%s"` and `"%s/%s"` formats). */
  lemma SprintfPair(c: char, a: string, b: string)
    requires c != '%'
    ensures FormatFor("%s" + [c] + "%s", 2)
    ensures Sprintf("%s" + [c] + "%s", [a, b]) == a + [c] + b
  {
    SprintfVerb("", b, []);
    SprintfLiteral([c], "%s", [b]);
    SprintfVerb([c] + "%s", a, [b]);
    assert "%s" + [c] + "%s" == "%s" + ([c] + "%s");
    assert [a, b] == [a] + [b];
  }
}
