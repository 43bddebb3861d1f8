/**
 * Stripping comments from JSONC. The loop carries four flags; beside it stands what the
 * result is for: line breaks and string literals survive exactly, a text without comments
 * stays as it is, and stripping leaves no comment behind.
 */
module JsoncComments {
  // Where the reader is. `Escaped` follows a backslash inside a string literal.
  datatype Mode = Plain | InString | Escaped | InLine | InBlock

  // What remains of a text read from a mode on.
  function Strip(text: string, mode: Mode): string {
    if text == [] then []
    else
      var c, rest := text[0], text[1..];
      match mode
      case InLine => if IsBreak(c) then [c] + Strip(rest, Plain) else Strip(rest, InLine)
      case InBlock =>
        if c == '*' && rest != [] && rest[0] == '/' then Strip(rest[1..], Plain)
        else (if IsBreak(c) then [c] else []) + Strip(rest, InBlock)
      case Escaped => [c] + Strip(rest, InString)
      case InString => [c] + Strip(rest, if c == '\\' then Escaped else if c == '"' then Plain else InString)
      case Plain =>
        if c == '"' then [c] + Strip(rest, InString)
        else if c == '/' && rest != [] && rest[0] == '/' then Strip(rest[1..], InLine)
        else if c == '/' && rest != [] && rest[0] == '*' then Strip(rest[1..], InBlock)
        else [c] + Strip(rest, Plain)
  }

  predicate IsBreak(c: char) { c == '\n' || c == '\r' }

  ghost function ModeOf(inString: bool, escaped: bool, inLineComment: bool, inBlockComment: bool): Mode {
    if inLineComment then InLine
    else if inBlockComment then InBlock
    else if inString then (if escaped then Escaped else InString)
    else Plain
  }

  predicate NextIs(text: string, index: nat, c: char) { index + 1 < |text| && text[index + 1] == c }

  // One step of the description, at an index of the text.
  lemma Unfold(text: string, index: nat)
    requires index < |text|
    ensures var (c, rest) := (text[index], text[index + 1..]);
            && Strip(text[index..], InLine) == (if IsBreak(c) then [c] + Strip(rest, Plain) else Strip(rest, InLine))
            && Strip(text[index..], InBlock) ==
                 (if c == '*' && NextIs(text, index, '/') then Strip(text[index + 2..], Plain)
                  else (if IsBreak(c) then [c] else []) + Strip(rest, InBlock))
            && Strip(text[index..], Escaped) == [c] + Strip(rest, InString)
            && Strip(text[index..], InString) == [c] + Strip(rest, if c == '\\' then Escaped else if c == '"' then Plain else InString)
            && Strip(text[index..], Plain) ==
                 (if c == '"' then [c] + Strip(rest, InString)
                  else if c == '/' && NextIs(text, index, '/') then Strip(text[index + 2..], InLine)
                  else if c == '/' && NextIs(text, index, '*') then Strip(text[index + 2..], InBlock)
                  else [c] + Strip(rest, Plain))
  {
    var now := text[index..];
    assert now[0] == text[index] && now[1..] == text[index + 1..];
    assert index + 1 < |text| ==> now[1..][0] == text[index + 1] && now[1..][1..] == text[index + 2..];
  }

  // What has been written, followed by what remains to be read in a mode, is the whole result.
  ghost predicate Remains(text: string, index: nat, written: string, mode: Mode)
    requires index <= |text|
  {
    written + Strip(text[index..], mode) == Strip(text, Plain)
  }

  lemma Written(written: string, c: char, rest: string)
    ensures written + ([c] + rest) == written + [c] + rest
    ensures [] + rest == rest
  {
  }

  lemma Advance(text: string, index: nat, written: string)
    requires index < |text|
    ensures var c := text[index];
            && (Remains(text, index, written, InLine) ==>
                  if IsBreak(c) then Remains(text, index + 1, written + [c], Plain) else Remains(text, index + 1, written, InLine))
            && (Remains(text, index, written, InBlock) ==>
                  if c == '*' && NextIs(text, index, '/') then Remains(text, index + 2, written, Plain)
                  else if IsBreak(c) then Remains(text, index + 1, written + [c], InBlock)
                  else Remains(text, index + 1, written, InBlock))
            && (Remains(text, index, written, Escaped) ==> Remains(text, index + 1, written + [c], InString))
            && (Remains(text, index, written, InString) ==>
                  Remains(text, index + 1, written + [c], if c == '\\' then Escaped else if c == '"' then Plain else InString))
            && (Remains(text, index, written, Plain) ==>
                  if c == '"' then Remains(text, index + 1, written + [c], InString)
                  else if c == '/' && NextIs(text, index, '/') then Remains(text, index + 2, written, InLine)
                  else if c == '/' && NextIs(text, index, '*') then Remains(text, index + 2, written, InBlock)
                  else Remains(text, index + 1, written + [c], Plain))
  {
    var c, rest := text[index], text[index + 1..];
    Unfold(text, index);
    Written(written, c, Strip(rest, Plain));
    Written(written, c, Strip(rest, InString));
    Written(written, c, Strip(rest, Escaped));
    Written(written, c, Strip(rest, InBlock));
  }

  method StripJsonComments(jsoncText: string) returns (strippedText: string)
    ensures strippedText == Strip(jsoncText, Plain)
  {
    strippedText := "";
    var inString, escaped, inLineComment, inBlockComment := false, false, false, false;
    var index := 0;
    while index < |jsoncText|
      invariant index <= |jsoncText|
      invariant Remains(jsoncText, index, strippedText, ModeOf(inString, escaped, inLineComment, inBlockComment))
      invariant (inLineComment || inBlockComment ==> !inString) && (!inString ==> !escaped) && !(inLineComment && inBlockComment)
    {
      var character := jsoncText[index];
      Advance(jsoncText, index, strippedText);
      if inLineComment {
        if character == '\n' || character == '\r' {
          inLineComment := false;
          strippedText := strippedText + [character];
        }
      } else if inBlockComment {
        if character == '*' && NextIs(jsoncText, index, '/') {
          inBlockComment := false;
          index := index + 1;
        } else if character == '\n' || character == '\r' {
          strippedText := strippedText + [character];
        }
      } else if inString {
        strippedText := strippedText + [character];
        if escaped {
          escaped := false;
        } else if character == '\\' {
          escaped := true;
        } else if character == '"' {
          inString := false;
        }
      } else if character == '"' {
        inString := true;
        strippedText := strippedText + [character];
      } else if character == '/' && NextIs(jsoncText, index, '/') {
        inLineComment := true;
        index := index + 1;
      } else if character == '/' && NextIs(jsoncText, index, '*') {
        inBlockComment := true;
        index := index + 1;
      } else {
        strippedText := strippedText + [character];
      }
      index := index + 1;
    }
  }

  // ---------- What survives ----------

  // The mode in which the remains of a text are to be read.
  function Outside(mode: Mode): Mode { if mode.InLine? || mode.InBlock? then Plain else mode }

  // A character that starts no comment comes first in what remains.
  lemma FirstRemains(text: string)
    requires text != [] && text[0] != '/'
    ensures Strip(text, Plain) != [] && Strip(text, Plain)[0] == text[0]
  {
  }

  // What is read as code, character by character, is read the same way again.
  lemma Reread(c: char, rest: string, mode: Mode, next: Mode)
    requires mode.Plain? ==> c != '/' || rest == [] || (rest[0] != '/' && rest[0] != '*')
    requires !mode.InLine? && !mode.InBlock?
    requires next == match mode
             case Escaped => InString
             case InString => if c == '\\' then Escaped else if c == '"' then Plain else InString
             case _ => if c == '"' then InString else Plain
    ensures Strip([c] + rest, mode) == [c] + Strip(rest, next)
  {
    var text := [c] + rest;
    assert text[0] == c && text[1..] == rest;
  }

  /** Stripping leaves no comment behind, from wherever the text is read. */
  lemma {:induction false} StripsOnce(text: string, mode: Mode)
    ensures Strip(Strip(text, mode), Outside(mode)) == Strip(text, mode)
    decreases |text|
  {
    if text != [] {
      var c, rest := text[0], text[1..];
      match mode
      case InLine =>
        StripsOnce(rest, if IsBreak(c) then Plain else InLine);
        if IsBreak(c) { Reread(c, Strip(rest, Plain), Plain, Plain); }
      case InBlock =>
        if c == '*' && rest != [] && rest[0] == '/' {
          StripsOnce(rest[1..], Plain);
        } else {
          StripsOnce(rest, InBlock);
          if IsBreak(c) { Reread(c, Strip(rest, InBlock), Plain, Plain); } else { assert [] + Strip(rest, InBlock) == Strip(rest, InBlock); }
        }
      case Escaped =>
        StripsOnce(rest, InString);
        Reread(c, Strip(rest, InString), Escaped, InString);
      case InString =>
        var next := if c == '\\' then Escaped else if c == '"' then Plain else InString;
        StripsOnce(rest, next);
        Reread(c, Strip(rest, next), InString, next);
      case Plain => StripsOncePlain(text);
    }
  }

  lemma StripsOncePlain(text: string)
    requires text != []
    ensures Strip(Strip(text, Plain), Plain) == Strip(text, Plain)
    decreases |text|, 0
  {
    var c, rest := text[0], text[1..];
    if c == '/' && rest != [] && rest[0] == '/' {
      StripsOnce(rest[1..], InLine);
    } else if c == '/' && rest != [] && rest[0] == '*' {
      StripsOnce(rest[1..], InBlock);
    } else {
      var next := if c == '"' then InString else Plain;
      StripsOnce(rest, next);
      if c == '/' && rest != [] {
        FirstRemains(rest);
      }
      Reread(c, Strip(rest, next), Plain, next);
    }
  }

  // The line breaks of a text, in order.
  function Breaks(text: string): string {
    if text == [] then [] else (if IsBreak(text[0]) then [text[0]] else []) + Breaks(text[1..])
  }

  // A character that is kept, or that is dropped and no line break, changes nothing.
  lemma BreaksNext(text: string, kept: bool, stripped: string)
    requires text != [] && (kept || !IsBreak(text[0])) && Breaks(stripped) == Breaks(text[1..])
    ensures Breaks((if kept then [text[0]] else []) + stripped) == Breaks(text)
  {
    if kept {
      assert ([text[0]] + stripped)[1..] == stripped;
    } else {
      assert [] + stripped == stripped;
    }
  }

  /** Line numbers stay: the carriage returns and line feeds of a text are those of what remains, in order. */
  lemma {:induction false} BreaksSurvive(text: string, mode: Mode)
    ensures Breaks(Strip(text, mode)) == Breaks(text)
    decreases |text|
  {
    if text != [] {
      var c, rest := text[0], text[1..];
      if (mode.InBlock? && c == '*' && rest != [] && rest[0] == '/')
         || (mode.Plain? && c == '/' && rest != [] && (rest[0] == '/' || rest[0] == '*'))
      {
        BreaksSurvive(rest[1..], if mode.InBlock? then Plain else if rest[0] == '/' then InLine else InBlock);
      } else {
        var next := match mode
          case InLine => if IsBreak(c) then Plain else InLine
          case InBlock => InBlock
          case Escaped => InString
          case InString => if c == '\\' then Escaped else if c == '"' then Plain else InString
          case Plain => if c == '"' then InString else Plain;
        BreaksSurvive(rest, next);
        BreaksNext(text, IsBreak(c) || !(mode.InLine? || mode.InBlock?), Strip(rest, next));
      }
    }
  }

  // The string literals of a text with their quotes, in order; `open` is the part of one read so far.
  function Literals(text: string, mode: Mode, open: string): seq<string>
    decreases |text|
  {
    if text == [] then (if open == [] then [] else [open])
    else
      var c, rest := text[0], text[1..];
      match mode
      case InLine => Literals(rest, if IsBreak(c) then Plain else InLine, open)
      case InBlock => if c == '*' && rest != [] && rest[0] == '/' then Literals(rest[1..], Plain, open) else Literals(rest, InBlock, open)
      case Escaped => Literals(rest, InString, open + [c])
      case InString =>
        if c == '\\' then Literals(rest, Escaped, open + [c])
        else if c == '"' then [open + [c]] + Literals(rest, Plain, [])
        else Literals(rest, InString, open + [c])
      case Plain =>
        if c == '"' then Literals(rest, InString, [c])
        else if c == '/' && rest != [] && rest[0] == '/' then Literals(rest[1..], InLine, open)
        else if c == '/' && rest != [] && rest[0] == '*' then Literals(rest[1..], InBlock, open)
        else Literals(rest, Plain, open)
  }

  // How a character of code moves the reading of literals on.
  lemma LiteralsCons(c: char, rest: string, mode: Mode, open: string)
    requires mode.Plain? ==> c != '/' || rest == [] || (rest[0] != '/' && rest[0] != '*')
    requires !mode.InLine? && !mode.InBlock?
    ensures Literals([c] + rest, mode, open) == match mode
            case Escaped => Literals(rest, InString, open + [c])
            case InString =>
              if c == '\\' then Literals(rest, Escaped, open + [c])
              else if c == '"' then [open + [c]] + Literals(rest, Plain, [])
              else Literals(rest, InString, open + [c])
            case _ => if c == '"' then Literals(rest, InString, [c]) else Literals(rest, Plain, open)
  {
    var text := [c] + rest;
    assert text[0] == c && text[1..] == rest;
  }

  /** String literals survive verbatim, escapes included. */
  lemma {:induction false} LiteralsSurvive(text: string, mode: Mode, open: string)
    ensures Literals(Strip(text, mode), Outside(mode), open) == Literals(text, mode, open)
    decreases |text|
  {
    if text != [] {
      var c, rest := text[0], text[1..];
      match mode
      case InLine =>
        LiteralsSurvive(rest, if IsBreak(c) then Plain else InLine, open);
        if IsBreak(c) { LiteralsCons(c, Strip(rest, Plain), Plain, open); }
      case InBlock =>
        if c == '*' && rest != [] && rest[0] == '/' {
          LiteralsSurvive(rest[1..], Plain, open);
        } else {
          LiteralsSurvive(rest, InBlock, open);
          if IsBreak(c) { LiteralsCons(c, Strip(rest, InBlock), Plain, open); } else { assert [] + Strip(rest, InBlock) == Strip(rest, InBlock); }
        }
      case Escaped =>
        LiteralsSurvive(rest, InString, open + [c]);
        LiteralsCons(c, Strip(rest, InString), Escaped, open);
      case InString =>
        var next := if c == '\\' then Escaped else if c == '"' then Plain else InString;
        LiteralsSurvive(rest, next, if c == '"' then [] else open + [c]);
        LiteralsCons(c, Strip(rest, next), InString, open);
      case Plain => LiteralsSurvivePlain(text, open);
    }
  }

  lemma LiteralsSurvivePlain(text: string, open: string)
    requires text != []
    ensures Literals(Strip(text, Plain), Plain, open) == Literals(text, Plain, open)
    decreases |text|, 0
  {
    var c, rest := text[0], text[1..];
    if c == '/' && rest != [] && rest[0] == '/' {
      LiteralsSurvive(rest[1..], InLine, open);
    } else if c == '/' && rest != [] && rest[0] == '*' {
      LiteralsSurvive(rest[1..], InBlock, open);
    } else {
      var next := if c == '"' then InString else Plain;
      LiteralsSurvive(rest, next, if c == '"' then [c] else open);
      if c == '/' && rest != [] {
        FirstRemains(rest);
      }
      LiteralsCons(c, Strip(rest, next), Plain, open);
    }
  }

  // No comment starts where code is read.
  predicate CommentFree(text: string, mode: Mode)
    decreases |text|
  {
    text == [] ||
    var c, rest := text[0], text[1..];
    match mode
    case Escaped => CommentFree(rest, InString)
    case InString => CommentFree(rest, if c == '\\' then Escaped else if c == '"' then Plain else InString)
    case InLine => false
    case InBlock => false
    case Plain =>
      && !(c == '/' && rest != [] && (rest[0] == '/' || rest[0] == '*'))
      && CommentFree(rest, if c == '"' then InString else Plain)
  }

  lemma {:induction false} NeverLonger(text: string, mode: Mode)
    ensures |Strip(text, mode)| <= |text|
    decreases |text|
  {
    if text != [] {
      var c, rest := text[0], text[1..];
      match mode
      case InLine => NeverLonger(rest, if IsBreak(c) then Plain else InLine);
      case InBlock =>
        if c == '*' && rest != [] && rest[0] == '/' { NeverLonger(rest[1..], Plain); } else { NeverLonger(rest, InBlock); }
      case Escaped => NeverLonger(rest, InString);
      case InString => NeverLonger(rest, if c == '\\' then Escaped else if c == '"' then Plain else InString);
      case Plain =>
        if c == '/' && rest != [] && (rest[0] == '/' || rest[0] == '*') {
          NeverLonger(rest[1..], if rest[0] == '/' then InLine else InBlock);
        } else {
          NeverLonger(rest, if c == '"' then InString else Plain);
        }
    }
  }

  /** A text stays as it is exactly if no comment starts in it outside string literals. */
  lemma {:induction false} UnchangedIffCommentFree(text: string, mode: Mode)
    requires !mode.InLine? && !mode.InBlock?
    ensures Strip(text, mode) == text <==> CommentFree(text, mode)
    decreases |text|
  {
    if text != [] {
      var c, rest := text[0], text[1..];
      assert text == [c] + rest;
      if mode.Plain? && c == '/' && rest != [] && (rest[0] == '/' || rest[0] == '*') {
        NeverLonger(rest[1..], if rest[0] == '/' then InLine else InBlock);
      } else {
        var next := match mode
          case Escaped => InString
          case InString => if c == '\\' then Escaped else if c == '"' then Plain else InString
          case _ => if c == '"' then InString else Plain;
        UnchangedIffCommentFree(rest, next);
        assert Strip(text, mode) == [c] + Strip(rest, next);
      }
    }
  }

  // ---------- What a comment leaves ----------

  // Where the reader is after a text in which no comment starts.
  function ModeAfter(code: string, mode: Mode): Mode {
    if code == [] then mode else ModeAfter(code[1..], Next(code[0], mode))
  }

  function Next(c: char, mode: Mode): Mode {
    match mode
    case Escaped => InString
    case InString => if c == '\\' then Escaped else if c == '"' then Plain else InString
    case _ => if c == '"' then InString else Plain
  }

  // Code that stands on its own: no comment starts in it, and none starts with its last character and what follows.
  ghost predicate CodeBefore(code: string, rest: string, mode: Mode) {
    && !mode.InLine? && !mode.InBlock? && CommentFree(code, mode)
    && (code != [] && code[|code| - 1] == '/' && rest != [] ==> rest[0] != '/' && rest[0] != '*')
  }

  lemma {:induction false} CodeStays(code: string, rest: string, mode: Mode)
    requires CodeBefore(code, rest, mode)
    ensures Strip(code + rest, mode) == code + Strip(rest, ModeAfter(code, mode))
  {
    if code == [] {
      assert code + rest == rest;
    } else {
      var text, tail := code + rest, code[1..];
      assert text == [code[0]] + (tail + rest);
      assert tail != [] ==> tail[|tail| - 1] == code[|code| - 1] && (tail + rest)[0] == tail[0];
      CodeStays(tail, rest, Next(code[0], mode));
      Reread(code[0], tail + rest, mode, Next(code[0], mode));
    }
  }

  lemma {:induction false} LineSkipped(comment: string, rest: string)
    requires forall i :: 0 <= i < |comment| ==> !IsBreak(comment[i])
    requires rest == [] || IsBreak(rest[0])
    ensures Strip(comment + rest, InLine) == Strip(rest, Plain)
  {
    if comment == [] {
      assert comment + rest == rest;
    } else {
      assert (comment + rest)[0] == comment[0] && (comment + rest)[1..] == comment[1..] + rest;
      LineSkipped(comment[1..], rest);
    }
  }

  /** A line comment goes with everything up to the line break, which stays. */
  lemma LineCommentGoes(code: string, comment: string, rest: string)
    requires CodeBefore(code, "//", Plain) && ModeAfter(code, Plain).Plain?
    requires forall i :: 0 <= i < |comment| ==> !IsBreak(comment[i])
    requires rest == [] || IsBreak(rest[0])
    ensures Strip(code + ("//" + comment + rest), Plain) == code + Strip(rest, Plain)
  {
    var tail := "//" + comment + rest;
    CodeStays(code, tail, Plain);
    assert tail[0] == '/' && tail[1..][0] == '/' && tail[1..][1..] == comment + rest;
    LineSkipped(comment, rest);
  }

  // The body of a block comment ends nowhere before the mark that closes it.
  ghost predicate Unclosed(body: string, end: string) {
    forall i :: 0 <= i < |body| && body[i] == '*' && i + 1 < |body + end| ==> (body + end)[i + 1] != '/'
  }

  lemma {:induction false} BlockSkipped(body: string, rest: string)
    requires Unclosed(body, "*/")
    ensures Strip(body + ("*/" + rest), InBlock) == Breaks(body) + Strip(rest, Plain)
  {
    var text := body + ("*/" + rest);
    if body == [] {
      assert text[0] == '*' && text[1..][0] == '/' && text[1..][1..] == rest;
    } else {
      var tail := body[1..];
      assert text[0] == body[0] && text[1..] == tail + ("*/" + rest);
      assert text[1] == (body + "*/")[1];
      assert Unclosed(tail, "*/") by {
        assert tail + "*/" == (body + "*/")[1..];
      }
      BlockSkipped(tail, rest);
    }
  }

  lemma {:induction false} OpenSkipped(body: string)
    requires Unclosed(body, "")
    ensures Strip(body, InBlock) == Breaks(body)
  {
    if body != [] {
      assert body + "" == body;
      assert Unclosed(body[1..], "") by {
        assert body[1..] + "" == body[1..];
      }
      OpenSkipped(body[1..]);
    }
  }

  /** A block comment goes but for its line breaks, up to the first mark that closes it or to the end of the text. */
  lemma BlockCommentGoes(code: string, body: string, rest: string)
    requires CodeBefore(code, "/*", Plain) && ModeAfter(code, Plain).Plain?
    ensures Unclosed(body, "*/") ==> Strip(code + ("/*" + body + "*/" + rest), Plain) == code + Breaks(body) + Strip(rest, Plain)
    ensures Unclosed(body, "") ==> Strip(code + ("/*" + body), Plain) == code + Breaks(body)
  {
    if Unclosed(body, "*/") {
      var tail := "/*" + body + "*/" + rest;
      CodeStays(code, tail, Plain);
      assert tail[0] == '/' && tail[1..][0] == '*' && tail[1..][1..] == body + ("*/" + rest);
      BlockSkipped(body, rest);
    }
    if Unclosed(body, "") {
      var tail := "/*" + body;
      CodeStays(code, tail, Plain);
      assert tail[0] == '/' && tail[1..][0] == '*' && tail[1..][1..] == body;
      OpenSkipped(body);
    }
  }
}
