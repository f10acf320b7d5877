/** The debug-header patcher: every `.mcfunction` file gets a first line
    `# Debug Message` followed by a `tellraw` command that prints the
    function's namespaced id. The path is an already-resolved sequence of
    components; reading and writing the file are left to the caller. */
module DebugHeader {
  import opened Wrappers
  import opened Text

  /** The two exceptions `generate_mcfunction_debug_line` can raise. */
  datatype PathError = ValueError | IndexError

  const DebugComment: string := "# Debug Message"
  const TellrawPrefix: string := "tellraw @a[tag=DebugMessages] [{\"text\":\""
  const TellrawSuffix: string := "\",\"color\":\"gray\",italic:true}]"
  const FunctionExtension: string := ".mcfunction"

  /** Python's `s.index(x)`: the first position of `x`, `None` for the `ValueError`. */
  function IndexOf<T(==)>(s: seq<T>, x: T): (r: Option<nat>)
    ensures r.None? <==> x !in s
    ensures r.Some? ==> r.value < |s| && s[r.value] == x && x !in s[..r.value]
    decreases |s|
  {
    if |s| == 0 then None
    else if s[0] == x then Some(0)
    else match IndexOf(s[1..], x)
      case None => None
      case Some(k) =>
        assert s[..k + 1] == [s[0]] + s[1..][..k];
        Some(k + 1)
  }

  /** The command printed for function `namespace:path`. */
  function Tellraw(namespace: string, path: string): string {
    TellrawPrefix + namespace + ":" + path + TellrawSuffix
  }

  /** `generate_mcfunction_debug_line` over the components of a resolved
      path. After the first `data` come the namespace and `function`; the
      rest, joined with `/` and without one trailing `.mcfunction`, is the
      function's path. A missing `data` or a wrong third component is a
      `ValueError`; a `data` among the last two components makes the
      indexing raise `IndexError`, which the `except ValueError` does not
      catch. */
  function DebugLine(parts: seq<string>): (r: Result<string, PathError>)
    ensures "data" !in parts ==> r == Failure(ValueError)
    ensures r.Success? ==> "data" in parts && "function" in parts
    ensures r.Success? ==> StartsWith(r.value, TellrawPrefix) && EndsWith(r.value, TellrawSuffix)
  {
    match IndexOf(parts, "data")
    case None => Failure(ValueError)
    case Some(d) =>
      if d + 2 >= |parts| then Failure(IndexError)
      else if parts[d + 2] != "function" then Failure(ValueError)
      else Success(Tellraw(parts[d + 1], RemoveSuffix(Join(parts[d + 3..], "/"), FunctionExtension)))
  }

  /* ---------------------------------------------------------------------- */
  /* The debug line, case by case                                            */

  /** A path `…/data/<ns>/function/<rest>` gives the tellraw line for
      `<ns>:<rest joined by '/'>`, `.mcfunction` removed once. */
  lemma DebugLineFunction(pre: seq<string>, namespace: string, rest: seq<string>)
    requires "data" !in pre
    ensures DebugLine(pre + ["data", namespace, "function"] + rest)
         == Success(Tellraw(namespace, RemoveSuffix(Join(rest, "/"), FunctionExtension)))
  {
    var parts := pre + ["data", namespace, "function"] + rest;
    assert parts[..|pre|] == pre;
    assert parts[|pre|] == "data";
    assert parts[|pre| + 3..] == rest;
  }

  /** Without a `data` component the line cannot be built. */
  lemma DebugLineNoData(parts: seq<string>)
    requires "data" !in parts
    ensures DebugLine(parts) == Failure(ValueError)
  {
  }

  /** A component other than `function` two after the first `data` is a `ValueError`. */
  lemma DebugLineNotFunction(pre: seq<string>, namespace: string, c: string, rest: seq<string>)
    requires "data" !in pre && c != "function"
    ensures DebugLine(pre + ["data", namespace, c] + rest) == Failure(ValueError)
  {
    var parts := pre + ["data", namespace, c] + rest;
    assert parts[..|pre|] == pre;
    assert parts[|pre|] == "data";
  }

  /** A first `data` among the last two components is an `IndexError`. */
  lemma DebugLineTruncated(pre: seq<string>, tail: seq<string>)
    requires "data" !in pre && |tail| < 2
    ensures DebugLine(pre + ["data"] + tail) == Failure(IndexError)
  {
    var parts := pre + ["data"] + tail;
    assert parts[..|pre|] == pre;
    assert parts[|pre|] == "data";
  }

  /** The cases are exhaustive: every path is one of the three shapes above. */
  lemma DebugLineCases(parts: seq<string>)
    ensures || "data" !in parts
            || (exists pre, tail :: "data" !in pre && |tail| < 2 && parts == pre + ["data"] + tail)
            || (exists pre, ns, c, rest :: "data" !in pre && parts == pre + ["data", ns, c] + rest)
  {
    if "data" in parts {
      var d := IndexOf(parts, "data").value;
      var pre := parts[..d];
      if d + 2 >= |parts| {
        var tail := parts[d + 1..];
        assert parts == pre + ["data"] + tail;
      } else {
        var rest := parts[d + 3..];
        assert parts == pre + ["data", parts[d + 1], parts[d + 2]] + rest;
      }
    }
  }

  /* ---------------------------------------------------------------------- */
  /* Reading a tellraw line back                                             */

  /** The namespace and path a tellraw line prints; the namespace ends at
      the first `:`. */
  function DecodeTellraw(line: string): Option<(string, string)> {
    var body :- Expect(line, TellrawPrefix);
    if !EndsWith(body, TellrawSuffix) then None
    else
      var id := body[..|body| - |TellrawSuffix|];
      match IndexOf(id, ':')
      case None => None
      case Some(k) => Some((id[..k], id[k + 1..]))
  }

  /** A namespace without `:` and its path are read back from the line. */
  lemma TellrawDecodes(namespace: string, path: string)
    requires ':' !in namespace
    ensures DecodeTellraw(Tellraw(namespace, path)) == Some((namespace, path))
  {
    var body := namespace + ":" + path + TellrawSuffix;
    assert Tellraw(namespace, path) == TellrawPrefix + body;
    ExpectLiteral(TellrawPrefix, body);
    var id := namespace + ":" + path;
    assert body[..|body| - |TellrawSuffix|] == id;
    assert body[|body| - |TellrawSuffix|..] == TellrawSuffix;
    assert id[..|namespace|] == namespace;
    assert id[|namespace|] == ':';
    assert id[|namespace| + 1..] == path;
  }

  /** Hence distinct functions get distinct debug lines. */
  lemma TellrawInjective(ns1: string, p1: string, ns2: string, p2: string)
    requires ':' !in ns1 && ':' !in ns2
    requires Tellraw(ns1, p1) == Tellraw(ns2, p2)
    ensures ns1 == ns2 && p1 == p2
  {
    TellrawDecodes(ns1, p1);
    TellrawDecodes(ns2, p2);
  }

  /* ---------------------------------------------------------------------- */
  /* The header                                                              */

  /** The file already starts with the comment and the wanted tellraw line. */
  predicate HasHeader(lines: seq<string>, tellraw: string) {
    |lines| >= 2 && StartsWith(lines[0], DebugComment) && lines[1] == tellraw
  }

  /** The pure line-list step of `add_or_update_debug_message`. */
  function UpdateHeader(lines: seq<string>, tellraw: string): (r: seq<string>)
    ensures HasHeader(r, tellraw)
    ensures HasHeader(lines, tellraw) ==> r == lines
  {
    if |lines| == 0 || !StartsWith(lines[0], DebugComment) then
      [DebugComment, tellraw, ""] + lines
    else if |lines| < 2 then
      lines + [tellraw]
    else if lines[1] != tellraw then
      lines[1 := tellraw]
    else
      lines
  }

  /** Without the comment on the first line, a three-line header goes in
      front and the file follows untouched. */
  lemma UpdateHeaderInsert(lines: seq<string>, tellraw: string)
    requires |lines| == 0 || !StartsWith(lines[0], DebugComment)
    ensures var r := UpdateHeader(lines, tellraw);
            |r| == |lines| + 3 && r[..3] == [DebugComment, tellraw, ""] && r[3..] == lines
  {
  }

  /** With the comment already on the first line, only line 1 is set
      (appended to a one-line file); every other line is kept. */
  lemma UpdateHeaderReplace(lines: seq<string>, tellraw: string)
    requires |lines| > 0 && StartsWith(lines[0], DebugComment)
    ensures var r := UpdateHeader(lines, tellraw);
            && |r| == (if |lines| < 2 then 2 else |lines|)
            && r[1] == tellraw
            && (forall k :: 0 <= k < |lines| && k != 1 ==> r[k] == lines[k])
  {
  }

  /** A second run changes nothing. */
  lemma UpdateHeaderIdempotent(lines: seq<string>, tellraw: string)
    ensures UpdateHeader(UpdateHeader(lines, tellraw), tellraw) == UpdateHeader(lines, tellraw)
  {
  }

  /** `add_or_update_debug_message` on a file with these path components and
      lines: `Success(Some(ls))` when it writes `ls`, `Success(None)` when it
      writes nothing (the line could not be built, or the header is already
      right), `Failure(IndexError)` when the exception escapes. */
  function AddOrUpdateDebugMessage(parts: seq<string>, lines: seq<string>): (r: Result<Option<seq<string>>, PathError>)
    ensures r.Failure? <==> DebugLine(parts) == Failure(IndexError)
    ensures r.Failure? ==> r.error == IndexError
    ensures DebugLine(parts) == Failure(ValueError) ==> r == Success(None)
    ensures DebugLine(parts).Success? ==>
              (r == Success(None) <==> HasHeader(lines, DebugLine(parts).value))
    ensures r.Success? && r.value.Some? ==> HasHeader(r.value.value, DebugLine(parts).value)
  {
    match DebugLine(parts)
    case Failure(IndexError) => Failure(IndexError)
    case Failure(ValueError) => Success(None)
    case Success(tellraw) =>
      if HasHeader(lines, tellraw) then Success(None) else Success(Some(UpdateHeader(lines, tellraw)))
  }

  /** Running the patcher over a file it has just written leaves it alone. */
  lemma AddOrUpdateIdempotent(parts: seq<string>, lines: seq<string>, written: seq<string>)
    requires AddOrUpdateDebugMessage(parts, lines) == Success(Some(written))
    ensures AddOrUpdateDebugMessage(parts, written) == Success(None)
  {
  }
}
