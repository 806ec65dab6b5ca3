/** The exception-text builders of `IoCExceptionHelper`. An exception is modelled with
    the members these builders read (message, source, target site, stack trace, the `Data`
    entries in enumeration order, the inner exception); `NoException` is null. The
    `StringBuilder` is a class holding its text, and `AppendLine` ends a line with "\n". */
module ExceptionDetails {
  import opened Wrappers
  import opened Strings

  datatype ExceptionChain =
    | NoException
    | Exception(message: string, source: Option<string>, targetSite: Option<string>, stackTrace: Option<string>,
                data: seq<(string, Option<string>)>, inner: ExceptionChain)

  const NewLine: string := "\n"

  class StringBuilder {
    var text: string

    constructor ()
      ensures text == ""
    {
      text := "";
    }

    method Append(s: string)
      modifies this
      ensures text == old(text) + s
    {
      text := text + s;
    }

    method AppendLine(s: string)
      modifies this
      ensures text == old(text) + s + NewLine
    {
      text := text + s + NewLine;
    }
  }

  /** The number of exceptions in the chain. */
  function Depth(c: ExceptionChain): nat
  {
    if c.NoException? then 0 else 1 + Depth(c.inner)
  }

  /** The messages along the chain, outermost first. */
  function Messages(c: ExceptionChain): (r: seq<string>)
    ensures |r| == Depth(c)
    ensures c.Exception? ==> r[0] == c.message && r[1..] == Messages(c.inner)
  {
    if c.NoException? then [] else [c.message] + Messages(c.inner)
  }

  /** Each part followed by `terminator`. */
  function Terminated(parts: seq<string>, terminator: string): string
  {
    if parts == [] then "" else parts[0] + terminator + Terminated(parts[1..], terminator)
  }

  lemma {:induction false} TerminatedAppend(xs: seq<string>, ys: seq<string>, terminator: string)
    ensures Terminated(xs + ys, terminator) == Terminated(xs, terminator) + Terminated(ys, terminator)
    decreases |xs|
  {
    if xs == [] {
      assert xs + ys == ys;
    } else {
      assert (xs + ys)[1..] == xs[1..] + ys;
      TerminatedAppend(xs[1..], ys, terminator);
    }
  }

  lemma TerminatedOne(x: string, terminator: string)
    ensures Terminated([x], terminator) == x + terminator
  {
    assert [x][1..] == [];
  }

  /** Extending the parts by one extends the text by that part and the terminator. */
  lemma TerminatedSnoc(xs: seq<string>, x: string, terminator: string)
    ensures Terminated(xs + [x], terminator) == Terminated(xs, terminator) + x + terminator
  {
    TerminatedAppend(xs, [x], terminator);
    TerminatedOne(x, terminator);
  }

  /** `GetFullExceptionMessage`: walks the chain until the first null inner exception,
      appending each message and ". "; a null exception gives "". */
  method GetFullExceptionMessage(ex: ExceptionChain) returns (message: string)
    ensures message == Terminated(Messages(ex), ". ")
  {
    var builder := new StringBuilder();
    var current := ex;
    while current.Exception?
      invariant builder.text + Terminated(Messages(current), ". ") == Terminated(Messages(ex), ". ")
      decreases current
    {
      FullMessageStep(builder.text, current);
      builder.Append(current.message);
      builder.Append(". ");
      current := current.inner;
    }
    message := builder.text;
  }

  /** One step of the walk: the text so far plus the rest of the chain's text is the
      text so far with this message and ". " plus the inner chain's text. */
  lemma FullMessageStep(text: string, c: ExceptionChain)
    requires c.Exception?
    ensures text + Terminated(Messages(c), ". ") == text + c.message + ". " + Terminated(Messages(c.inner), ". ")
  {
    assert Messages(c)[1..] == Messages(c.inner);
  }

  /** `c` with `x` put in place of its innermost null inner exception. */
  function Attach(c: ExceptionChain, x: ExceptionChain): ExceptionChain
  {
    if c.NoException? then x else c.(inner := Attach(c.inner, x))
  }

  /** Hanging a chain below another puts its messages after the other's. */
  lemma {:induction false} MessagesAttach(c: ExceptionChain, x: ExceptionChain)
    ensures Messages(Attach(c, x)) == Messages(c) + Messages(x)
    decreases c
  {
    if c.Exception? {
      MessagesAttach(c.inner, x);
    }
  }

  /** So the full message of the joined chain is the two full messages one after the
      other. */
  lemma FullMessageAttach(c: ExceptionChain, x: ExceptionChain)
    ensures Terminated(Messages(Attach(c, x)), ". ") == Terminated(Messages(c), ". ") + Terminated(Messages(x), ". ")
  {
    MessagesAttach(c, x);
    TerminatedAppend(Messages(c), Messages(x), ". ");
  }

  /** A line for an optional member, written only when its text is non-empty. */
  function OptionalLine(caption: string, value: Option<string>): (r: seq<string>)
    ensures |r| <= 1
    ensures r != [] <==> value.Some? && |value.value| > 0
    ensures r != [] ==> r[0] == caption + value.value
  {
    if IsNotNullNorEmpty(value) then [caption + value.value] else []
  }

  /** The lines of the two-argument `BuildExceptionDetail`: the message, the non-empty
      ones of source, target site and stack trace, then the inner exception's lines after
      an "InnerException: " line. */
  function DetailLines(e: ExceptionChain): seq<string>
    requires e.Exception?
    decreases e, 0
  {
    OwnLines(e) + InnerLines(e.inner)
  }

  /** The lines an exception writes about itself, without its inner exception. */
  function OwnLines(e: ExceptionChain): (r: seq<string>)
    requires e.Exception?
    ensures 1 <= |r| <= 4 && r[0] == "Message: " + e.message
  {
    ["Message: " + e.message]
    + OptionalLine("Source: ", e.source)
    + OptionalLine("TargetSite: ", e.targetSite)
    + OptionalLine("StackTrace: ", e.stackTrace)
  }

  function InnerLines(inner: ExceptionChain): seq<string>
    decreases inner, 1
  {
    if inner.NoException? then [] else ["InnerException: "] + DetailLines(inner)
  }

  /** The lines of the one-argument overload: the message, the source whether or not it
      is empty, one "key: value" line per `Data` entry, then the inner exception as the
      two-argument overload writes it. */
  function DataDetailLines(e: ExceptionChain): (r: seq<string>)
    requires e.Exception?
    ensures |r| == 2 + |e.data| + |InnerLines(e.inner)|
    ensures r[0] == "Message: " + e.message && r[1] == "Source: " + Text(e.source)
    ensures forall i | 0 <= i < |e.data| :: r[2 + i] == e.data[i].0 + ": " + Text(e.data[i].1)
    ensures r[2 + |e.data|..] == InnerLines(e.inner)
  {
    ["Message: " + e.message, "Source: " + Text(e.source)] + DataLines(e.data) + InnerLines(e.inner)
  }

  function DataLines(data: seq<(string, Option<string>)>): (r: seq<string>)
    ensures |r| == |data|
    ensures forall i | 0 <= i < |data| :: r[i] == data[i].0 + ": " + Text(data[i].1)
  {
    seq(|data|, i requires 0 <= i < |data| => data[i].0 + ": " + Text(data[i].1))
  }

  /** Every exception of the chain writes between one and four lines of its own, and
      every one but the outermost is announced by one "InnerException: " line. */
  lemma {:induction false} DetailLineCount(e: ExceptionChain)
    requires e.Exception?
    ensures 2 * Depth(e) - 1 <= |DetailLines(e)| <= 5 * Depth(e) - 1
    ensures multiset(DetailLines(e))["InnerException: "] == Depth(e) - 1
    decreases e
  {
    var own := OwnLines(e);
    forall i | 0 <= i < |own|
      ensures own[i] != "InnerException: "
    {
      assert own[i][0] in ['M', 'S', 'T'];
    }
    assert "InnerException: " !in own;
    assert multiset(own)["InnerException: "] == 0;
    if e.inner.Exception? {
      DetailLineCount(e.inner);
      assert InnerLines(e.inner) == ["InnerException: "] + DetailLines(e.inner);
    }
  }

  /** The two-argument `BuildExceptionDetail`: appends the exception's lines to `stack`
      and returns that same builder; a null exception throws before anything is
      written. */
  method BuildExceptionDetailInto(exception: ExceptionChain, stack: StringBuilder) returns (r: Result<StringBuilder>)
    modifies stack
    ensures exception.NoException? ==> r == Err(NullDereference) && stack.text == old(stack.text)
    ensures exception.Exception? ==> r == Ok(stack) && stack.text == old(stack.text) + Terminated(DetailLines(exception), NewLine)
    decreases exception, 0
  {
    if exception.NoException? {
      return Err(NullDereference);
    }
    AppendOwn(exception, stack);
    AppendInner(exception.inner, stack);
    TerminatedAppend(OwnLines(exception), InnerLines(exception.inner), NewLine);
    r := Ok(stack);
  }

  /** The message line, then the source, target-site and stack-trace lines that are
      non-empty. */
  method AppendOwn(exception: ExceptionChain, stack: StringBuilder)
    requires exception.Exception?
    modifies stack
    ensures stack.text == old(stack.text) + Terminated(OwnLines(exception), NewLine)
  {
    OwnText(stack.text, exception);
    stack.AppendLine("Message: " + exception.message);
    AppendOptional(stack, "Source: ", exception.source);
    AppendOptional(stack, "TargetSite: ", exception.targetSite);
    AppendOptional(stack, "StackTrace: ", exception.stackTrace);
  }

  /** One `if (!string.IsNullOrEmpty(...)) stack.AppendLine(caption + ...)`. */
  method AppendOptional(stack: StringBuilder, caption: string, value: Option<string>)
    modifies stack
    ensures stack.text == old(stack.text) + Terminated(OptionalLine(caption, value), NewLine)
  {
    if IsNotNullNorEmpty(value) {
      stack.AppendLine(caption + value.value);
      TerminatedOne(caption + value.value, NewLine);
    }
  }

  /** The block both overloads end with: a non-null inner exception is written after an
      "InnerException: " line by the two-argument overload. */
  method AppendInner(inner: ExceptionChain, stack: StringBuilder)
    modifies stack
    ensures stack.text == old(stack.text) + Terminated(InnerLines(inner), NewLine)
    decreases inner, 1
  {
    if inner.Exception? {
      ghost var start := stack.text;
      stack.AppendLine("InnerException: ");
      var _ := BuildExceptionDetailInto(inner, stack);
      TerminatedAppend(["InnerException: "], DetailLines(inner), NewLine);
      TerminatedOne("InnerException: ", NewLine);
    }
  }

  /** The text of an exception's own lines, line by line, after any `text`. */
  lemma OwnText(text: string, e: ExceptionChain)
    requires e.Exception?
    ensures text + Terminated(OwnLines(e), NewLine)
         == text + ("Message: " + e.message) + NewLine
            + Terminated(OptionalLine("Source: ", e.source), NewLine)
            + Terminated(OptionalLine("TargetSite: ", e.targetSite), NewLine)
            + Terminated(OptionalLine("StackTrace: ", e.stackTrace), NewLine)
  {
    var m := ["Message: " + e.message];
    var a := OptionalLine("Source: ", e.source);
    var b := OptionalLine("TargetSite: ", e.targetSite);
    var c := OptionalLine("StackTrace: ", e.stackTrace);
    TerminatedAppend(m + a + b, c, NewLine);
    TerminatedAppend(m + a, b, NewLine);
    TerminatedAppend(m, a, NewLine);
    TerminatedOne("Message: " + e.message, NewLine);
  }

  /** The one-argument `BuildExceptionDetail`: a new builder with the message, the
      source (written even when empty), the `Data` entries, then the inner exception's
      detail; a null exception throws. */
  method BuildExceptionDetail(exception: ExceptionChain) returns (r: Result<string>)
    ensures exception.NoException? ==> r == Err(NullDereference)
    ensures exception.Exception? ==> r == Ok(Terminated(DataDetailLines(exception), NewLine))
  {
    var errorMsg := new StringBuilder();
    if exception.NoException? {
      return Err(NullDereference);
    }
    errorMsg.AppendLine("Message: " + exception.message);
    errorMsg.AppendLine("Source: " + Text(exception.source));
    ghost var header := ["Message: " + exception.message, "Source: " + Text(exception.source)];
    assert errorMsg.text == Terminated(header, NewLine) by {
      assert header == ["Message: " + exception.message] + ["Source: " + Text(exception.source)];
      TerminatedSnoc(["Message: " + exception.message], "Source: " + Text(exception.source), NewLine);
      TerminatedOne("Message: " + exception.message, NewLine);
    }
    ghost var lines := DataLines(exception.data);
    assert header + lines[..0] == header;
    var i := 0;
    while i < |exception.data|
      invariant 0 <= i <= |exception.data|
      invariant errorMsg.text == Terminated(header + lines[..i], NewLine)
    {
      var entry := exception.data[i];
      TerminatedSnoc(header + lines[..i], entry.0 + ": " + Text(entry.1), NewLine);
      errorMsg.AppendLine(entry.0 + ": " + Text(entry.1));
      assert header + lines[..i + 1] == header + lines[..i] + [entry.0 + ": " + Text(entry.1)];
      i := i + 1;
    }
    assert lines[..i] == lines;
    AppendInner(exception.inner, errorMsg);
    TerminatedAppend(header + lines, InnerLines(exception.inner), NewLine);
    r := Ok(errorMsg.text);
  }

  /** For an exception with a non-empty source, nothing else optional and no `Data`,
      both overloads write the same text. */
  lemma OverloadsAgree(e: ExceptionChain)
    requires e.Exception? && IsNotNullNorEmpty(e.source) && !IsNotNullNorEmpty(e.targetSite)
    requires !IsNotNullNorEmpty(e.stackTrace) && e.data == []
    ensures DataDetailLines(e) == DetailLines(e)
  {
  }
}
