/**
 * The local command language: a line starting with `#` is a command
 * (`#share`/`#s`, `#download`/`#d`, `#quit`/`#q`), anything else is a chat
 * message to broadcast.
 */
module Commands {
  import opened Wrappers
  import opened Primitives
  import opened Channel

  datatype Command =
    | Share(file: string)
    | Download(ticket: string, outputFile: Option<string>)
    | Send(message: Message)
    | Quit

  datatype ParseError = MissingPart | UnknownCommand(cmd: string)

  /**
   * `s.splitn(2, ' ')`: the text before the first space, and the rest after
   * it when there is a space at all.
   */
  function SplitOnce(s: string): (r: (string, Option<string>))
    ensures ' ' !in r.0
    ensures r.1.None? ==> r.0 == s
    ensures r.1.Some? ==> s == r.0 + " " + r.1.value
  {
    if s == [] then ([], None)
    else if s[0] == ' ' then ([], Some(s[1..]))
    else
      var (head, rest) := SplitOnce(s[1..]);
      assert s == [s[0]] + s[1..];
      ([s[0]] + head, rest)
  }

  /** The split is unique: it is at the first space, or there is no space. */
  lemma {:induction false} SplitOnceAt(head: string, rest: Option<string>)
    requires ' ' !in head
    ensures rest.Some? ==> SplitOnce(head + " " + rest.value) == (head, rest)
    ensures rest.None? ==> SplitOnce(head) == (head, None)
  {
    var s := if rest.Some? then head + " " + rest.value else head;
    if head == [] {
      if rest.Some? {
        assert s[0] == ' ' && s[1..] == rest.value;
      }
    } else {
      SplitOnceAt(head[1..], rest);
      if rest.Some? {
        assert s[1..] == head[1..] + " " + rest.value;
      }
      assert s[0] == head[0] && head == [head[0]] + head[1..];
    }
  }

  predicate IsKeyword(head: string) {
    head in {"#share", "#s", "#download", "#d", "#quit", "#q"}
  }

  /** `FromStr for Command`; a chat message gets the given id and timestamp. */
  function Parse(s: string, id: Uuid, now: u64): (r: Result<Command, ParseError>)
    ensures r.Err? ==> |s| > 0 && s[0] == '#'
    ensures (|s| == 0 || s[0] != '#') ==> r == Ok(Send(Message(Text(s), id, now)))
  {
    if |s| > 0 && s[0] == '#' then
      var (head, rest) := SplitOnce(s);
      if head == "#share" || head == "#s" then
        if rest.None? then Err(MissingPart) else Ok(Share(rest.value))
      else if head == "#download" || head == "#d" then
        if rest.None? then Err(MissingPart)
        else
          var (ticket, outputFile) := SplitOnce(rest.value);
          Ok(Download(ticket, outputFile))
      else if head == "#quit" || head == "#q" then Ok(Quit)
      else Err(UnknownCommand(head))
    else
      Ok(Send(Message(Text(s), id, now)))
  }

  /** `#share X` and `#s X` share X: everything after the first space, spaces included. */
  lemma ParseShare(kw: string, file: string, id: Uuid, now: u64)
    requires kw == "#share" || kw == "#s"
    ensures Parse(kw + " " + file, id, now) == Ok(Share(file))
  {
    SplitOnceAt(kw, Some(file));
  }

  /** A keyword that needs an argument, with no space after it, is a missing part. */
  lemma ParseMissingPart(kw: string, id: Uuid, now: u64)
    requires kw == "#share" || kw == "#s" || kw == "#download" || kw == "#d"
    ensures Parse(kw, id, now) == Err(MissingPart)
  {
    SplitOnceAt(kw, None);
    assert SplitOnce(kw) == (kw, None);
  }

  /** `#download T` downloads T to the default place. */
  lemma ParseDownload(kw: string, ticket: string, id: Uuid, now: u64)
    requires kw == "#download" || kw == "#d"
    requires ' ' !in ticket
    ensures Parse(kw + " " + ticket, id, now) == Ok(Download(ticket, None))
  {
    SplitOnceAt(kw, Some(ticket));
    SplitOnceAt(ticket, None);
  }

  /** `#download T P` downloads T to P: everything after the second space. */
  lemma ParseDownloadTo(kw: string, ticket: string, path: string, id: Uuid, now: u64)
    requires kw == "#download" || kw == "#d"
    requires ' ' !in ticket
    ensures Parse(kw + " " + ticket + " " + path, id, now) == Ok(Download(ticket, Some(path)))
  {
    assert kw + " " + ticket + " " + path == kw + " " + (ticket + " " + path);
    SplitOnceAt(kw, Some(ticket + " " + path));
    SplitOnceAt(ticket, Some(path));
  }

  /** `#quit` and `#q` quit, whatever follows the first space. */
  lemma ParseQuit(kw: string, rest: Option<string>, id: Uuid, now: u64)
    requires kw == "#quit" || kw == "#q"
    ensures rest.None? ==> Parse(kw, id, now) == Ok(Quit)
    ensures rest.Some? ==> Parse(kw + " " + rest.value, id, now) == Ok(Quit)
  {
    SplitOnceAt(kw, rest);
  }

  /** Any other `#` word is an unknown command, e.g. `#Share` or `#sharex`. */
  lemma ParseUnknown(head: string, rest: Option<string>, id: Uuid, now: u64)
    requires |head| > 0 && head[0] == '#' && ' ' !in head && !IsKeyword(head)
    ensures rest.None? ==> Parse(head, id, now) == Err(UnknownCommand(head))
    ensures rest.Some? ==> Parse(head + " " + rest.value, id, now) == Err(UnknownCommand(head))
  {
    SplitOnceAt(head, rest);
  }

  /** What the parser accepts as a share is exactly `#share X` or `#s X`. */
  lemma ParsedShareShape(s: string, id: Uuid, now: u64, file: string)
    requires Parse(s, id, now) == Ok(Share(file))
    ensures s == "#share " + file || s == "#s " + file
  {
  }

  /** What the parser accepts as a download is exactly `#download T` or `#download T P` (or `#d`). */
  lemma ParsedDownloadShape(s: string, id: Uuid, now: u64, ticket: string, outputFile: Option<string>)
    requires Parse(s, id, now) == Ok(Download(ticket, outputFile))
    ensures ' ' !in ticket
    ensures exists kw | kw == "#download" || kw == "#d" ::
              s == kw + " " + ticket + (if outputFile.Some? then " " + outputFile.value else "")
  {
    var (head, rest) := SplitOnce(s);
    var params := rest.value;
    assert s == head + " " + params;
    if outputFile.Some? {
      assert params == ticket + " " + outputFile.value;
      assert s == head + " " + ticket + (" " + outputFile.value);
    } else {
      assert s == head + " " + ticket + "";
    }
  }

  /** A share command. */
  lemma ParseShareExample(id: Uuid, now: u64)
    ensures Parse("#share foo.txt", id, now) == Ok(Share("foo.txt"))
  {
    ParseShare("#share", "foo.txt", id, now);
    assert "#share" + " " + "foo.txt" == "#share foo.txt";
  }

  /** A download command without an output file. */
  lemma ParseDownloadExample(id: Uuid, now: u64)
    ensures Parse("#download XYZ", id, now) == Ok(Download("XYZ", None))
  {
    ParseDownload("#download", "XYZ", id, now);
    assert "#download" + " " + "XYZ" == "#download XYZ";
  }

  /** A line that does not start with `#` is a chat message, spaces included. */
  lemma ParseTextExample(id: Uuid, now: u64)
    ensures Parse("hello world", id, now) == Ok(Send(Message(Text("hello world"), id, now)))
  {
  }

  /** An unknown word after `#` is refused with the word. */
  lemma ParseUnknownExample(id: Uuid, now: u64)
    ensures Parse("#nonsense", id, now) == Err(UnknownCommand("#nonsense"))
  {
    ParseUnknown("#nonsense", None, id, now);
  }

  /** A keyword followed by a single space gives an empty argument. */
  lemma ParseEmptyArgumentExamples(id: Uuid, now: u64)
    ensures Parse("#share ", id, now) == Ok(Share(""))
    ensures Parse("#download ", id, now) == Ok(Download("", None))
  {
    ParseShare("#share", "", id, now);
    assert "#share" + " " + "" == "#share ";
    ParseDownload("#download", "", id, now);
    assert "#download" + " " + "" == "#download ";
  }
}
