/** jsonToNetscape and prepareCookieFile: turning the cookies a user pastes
    (a browser's JSON export or a Netscape cookie file) into the file
    handed to yt-dlp with --cookies. */
module Cookies {
  import opened Wrappers
  import opened Strings
  import opened Decimal
  import opened Paths

  /** One decoded `chromeCookie`; `expiry` is the already rounded
      `int64(Expiry + 0.5)`. */
  datatype Cookie = Cookie(
    domain: string,
    name: string,
    value: string,
    path: string,
    secure: bool,
    expiry: int)

  const Header := "# Netscape HTTP Cookie File"

  function Flag(b: bool): string { if b then "TRUE" else "FALSE" }

  /** The seven tab-separated fields of a cookie's line, in Netscape order. */
  function Fields(c: Cookie): (f: seq<string>)
    ensures |f| == 7
    ensures f[0] == c.domain && f[2] == c.path && f[5] == c.name && f[6] == c.value
    ensures f[1] == "TRUE" || f[1] == "FALSE"
    ensures f[3] == "TRUE" || f[3] == "FALSE"
    ensures f[1] == "TRUE" <==> HasPrefix(c.domain, ".")
    ensures f[3] == "TRUE" <==> c.secure
    ensures ParseInt(f[4]) == Some(c.expiry)
  {
    IntToStringRoundTrip(c.expiry);
    [c.domain, Flag(HasPrefix(c.domain, ".")), c.path, Flag(c.secure), IntToString(c.expiry), c.name, c.value]
  }

  function Row(c: Cookie): string { Join(Fields(c), '\t') }

  /** The header followed by one row per cookie, in input order. */
  function Rows(cs: seq<Cookie>): (r: seq<string>)
    ensures |r| == |cs| + 1 && r[0] == Header
    ensures forall i :: 0 <= i < |cs| ==> r[i + 1] == Row(cs[i])
  {
    [Header] + seq(|cs|, i requires 0 <= i < |cs| => Row(cs[i]))
  }

  /** Each line followed by `sep`. */
  function Terminated(lines: seq<string>, sep: char): string
  {
    if lines == [] then "" else lines[0] + [sep] + Terminated(lines[1..], sep)
  }

  /** The text jsonToNetscape returns. */
  function CookieFile(cs: seq<Cookie>): string { Terminated(Rows(cs), '\n') }

  lemma {:induction false} TerminatedSnoc(lines: seq<string>, x: string, sep: char)
    ensures Terminated(lines + [x], sep) == Terminated(lines, sep) + x + [sep]
  {
    if lines == [] {
      assert lines + [x] == [x];
    } else {
      assert (lines + [x])[1..] == lines[1..] + [x];
      TerminatedSnoc(lines[1..], x, sep);
    }
  }

  /** A terminated text is the join of its lines and one empty last part. */
  lemma {:induction false} TerminatedIsJoin(lines: seq<string>, sep: char)
    ensures Terminated(lines, sep) == Join(lines + [""], sep)
  {
    if lines != [] {
      assert (lines + [""])[1..] == lines[1..] + [""];
      TerminatedIsJoin(lines[1..], sep);
    }
  }

  /** One more cookie adds its row and a newline at the end. */
  lemma CookieFileSnoc(cs: seq<Cookie>, c: Cookie)
    ensures CookieFile(cs + [c]) == CookieFile(cs) + Row(c) + "\n"
  {
    assert Rows(cs + [c]) == Rows(cs) + [Row(c)];
    TerminatedSnoc(Rows(cs), Row(c), '\n');
  }

  /** The builder loop of jsonToNetscape; a failed decode is its error. */
  method JsonToNetscape(decoded: Result<seq<Cookie>>) returns (r: Result<string>)
    ensures decoded.Fail? ==> r == Fail(decoded.error)
    ensures decoded.Ok? ==> r == Ok(CookieFile(decoded.value))
  {
    if decoded.Fail? {
      return Fail(decoded.error);
    }
    var arr := decoded.value;
    var b := Header + "\n";
    assert Rows(arr[..0]) == [Header];
    assert Terminated([Header], '\n') == Header + "\n" + Terminated([], '\n');
    for i := 0 to |arr|
      invariant b == CookieFile(arr[..i])
    {
      var c := arr[i];
      var hostOnly := "FALSE";
      if HasPrefix(c.domain, ".") {
        hostOnly := "TRUE";
      }
      var secure := "FALSE";
      if c.secure {
        secure := "TRUE";
      }
      // "%s\t%s\t%s\t%s\t%d\t%s\t%s\n"
      var line := Join([c.domain, hostOnly, c.path, secure, IntToString(c.expiry), c.name, c.value], '\t');
      assert line == Row(c);
      CookieFileSnoc(arr[..i], c);
      assert arr[..i + 1] == arr[..i] + [c];
      b := b + line + "\n";
    }
    assert arr[..|arr|] == arr;
    return Ok(b);
  }

  /** Reading the file back: the header, then exactly one line per cookie
      holding its seven fields, then nothing after the last newline. */
  lemma CookieFileLines(cs: seq<Cookie>)
    requires forall i, k :: 0 <= i < |cs| && 0 <= k < 7 ==> '\t' !in Fields(cs[i])[k] && '\n' !in Fields(cs[i])[k]
    ensures var lines := Split(CookieFile(cs), '\n');
      && |lines| == |cs| + 2
      && lines[0] == Header
      && lines[|cs| + 1] == ""
      && forall i :: 0 <= i < |cs| ==> Split(lines[i + 1], '\t') == Fields(cs[i])
  {
    var rows := Rows(cs);
    TerminatedIsJoin(rows, '\n');
    forall i | 0 <= i < |cs|
      ensures '\n' !in rows[i + 1] && Split(rows[i + 1], '\t') == Fields(cs[i])
    {
      SplitJoin(Fields(cs[i]), '\t');
      JoinFree(Fields(cs[i]), '\t', '\n');
    }
    assert forall i :: 0 <= i < |rows + [""]| ==> '\n' !in (rows + [""])[i];
    SplitJoin(rows + [""], '\n');
  }

  /** Joining with one character keeps out any other character the parts lack. */
  lemma {:induction false} JoinFree(parts: seq<string>, sep: char, c: char)
    requires c != sep
    requires forall k :: 0 <= k < |parts| ==> c !in parts[k]
    ensures c !in Join(parts, sep)
  {
    if |parts| > 1 {
      JoinFree(parts[1..], sep, c);
    }
  }

  /** The heuristic of prepareCookieFile: JSON when the text, once leading
      white space is skipped, starts with '['. */
  predicate LooksLikeJson(raw: string) { HasPrefix(TrimSpace(raw), "[") }

  /** What prepareCookieFile hands back: no file (empty path), a written
      file, or an error. */
  datatype Prepared = NoFile | Written(path: string, contents: string) | PrepError(message: string)

  /** The path prepareCookieFile returns: "" when it wrote no file. */
  function PathOf(p: Prepared): string
  {
    if p.Written? then p.path else ""
  }

  /** What prepareCookieFile makes of `raw` in `workDir`, with `decoded`
      the outcome of json.Unmarshal on `raw` and `writeErr` that of
      os.WriteFile. */
  function Prepare(raw: string, workDir: string, decoded: Result<seq<Cookie>>, writeErr: Option<string>): Prepared
  {
    if raw == "" then NoFile
    else if LooksLikeJson(raw) && decoded.Fail? then PrepError(decoded.error)
    else if writeErr.Some? then PrepError(writeErr.value)
    else Written(JoinPath(workDir, "cookies.txt"), if LooksLikeJson(raw) then CookieFile(decoded.value) else raw)
  }

  /** The cases of prepareCookieFile: no file exactly for empty input; a
      JSON export that fails to decode is an error; otherwise the converted
      or verbatim text is written to cookies.txt in `workDir`, unless the
      write fails. */
  lemma PrepareCases(raw: string, workDir: string, decoded: Result<seq<Cookie>>, writeErr: Option<string>)
    ensures var r := Prepare(raw, workDir, decoded, writeErr);
      && (raw == "" <==> r == NoFile)
      && (raw != "" && LooksLikeJson(raw) && decoded.Fail? ==> r == PrepError(decoded.error))
      && (raw != "" && LooksLikeJson(raw) && decoded.Ok? && writeErr.None? ==>
            r == Written(JoinPath(workDir, "cookies.txt"), CookieFile(decoded.value)))
      && (raw != "" && !LooksLikeJson(raw) && writeErr.None? ==> r == Written(JoinPath(workDir, "cookies.txt"), raw))
      && (raw != "" && (LooksLikeJson(raw) ==> decoded.Ok?) && writeErr.Some? ==> r == PrepError(writeErr.value))
  {
  }

  /** prepareCookieFile, converting with JsonToNetscape. */
  method PrepareCookieFile(raw: string, workDir: string, decoded: Result<seq<Cookie>>, writeErr: Option<string>)
    returns (r: Prepared)
    ensures r == Prepare(raw, workDir, decoded, writeErr)
  {
    if raw == "" {
      return NoFile;
    }
    // heuristic: JSON starts with '['
    var txt;
    if HasPrefix(TrimSpace(raw), "[") {
      var conv := JsonToNetscape(decoded);
      if conv.Fail? {
        return PrepError(conv.error);
      }
      txt := conv.value;
    } else {
      txt := raw;
    }
    var tmp := JoinPath(workDir, "cookies.txt");
    if writeErr.Some? {
      return PrepError(writeErr.value);
    }
    return Written(tmp, txt);
  }

  /** White space before the '[' does not hide a JSON export, and text
      that starts with anything else is passed on as a Netscape file. */
  lemma JsonDetection(spaces: string, rest: string)
    requires forall k :: 0 <= k < |spaces| ==> IsSpace(spaces[k])
    ensures LooksLikeJson(spaces + "[" + rest)
    ensures |rest| > 0 && !IsSpace(rest[0]) && rest[0] != '[' ==> !LooksLikeJson(spaces + rest)
  {
    SkipSpaces(spaces, "[" + rest);
    assert spaces + "[" + rest == spaces + ("[" + rest);
    TrimSpacePrefix(spaces + "[" + rest);
    if |rest| > 0 && !IsSpace(rest[0]) {
      SkipSpaces(spaces, rest);
      TrimSpacePrefix(spaces + rest);
    }
  }

  lemma {:induction false} SkipSpaces(spaces: string, rest: string)
    requires forall k :: 0 <= k < |spaces| ==> IsSpace(spaces[k])
    requires |rest| > 0 && !IsSpace(rest[0])
    ensures TrimLeftSpace(spaces + rest) == rest
  {
    if spaces != [] {
      assert (spaces + rest)[1..] == spaces[1..] + rest;
      SkipSpaces(spaces[1..], rest);
    } else {
      assert spaces + rest == rest;
    }
  }
}
