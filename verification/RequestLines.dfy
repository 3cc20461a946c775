/** The request line: what a client writes is what the request event carries. */
module RequestLines {
  import opened Basics
  import opened CText
  import opened Numbers
  import opened QueryVars
  import opened StreamModel

  /** Text that "%s" reads through to its end. */
  ghost predicate NoSpace(s: string) {
    forall i :: 0 <= i < |s| ==> s[i] != '\0' && !IsSpace(s[i])
  }

  lemma {:induction false} WordEnds(word: string, rest: string, max: nat)
    requires NoSpace(word) && |word| <= max
    requires |word| == max || At(rest, 0) == '\0' || IsSpace(At(rest, 0))
    ensures Word(word + rest, max) == word
  {
    if word == "" {
      assert word + rest == rest;
    } else {
      assert (word + rest)[1..] == word[1..] + rest;
      WordEnds(word[1..], rest, max - 1);
    }
  }

  lemma SpaceSkipped(s: string)
    requires s != "" && !IsSpace(s[0])
    ensures SkipSpace(" " + s) == s && SkipSpace(s) == s
  {
    assert (" " + s)[1..] == s;
  }

  lemma {:induction false} EncodedPathHasNoSpace(path: string, style: Style)
    requires style.Valid() && ByteText(path) && style.plain !! {'\U{000B}', '\U{000C}'}
    ensures NoSpace(Encode(path, style)) && (path != "" ==> Encode(path, style) != "")
  {
    if path != "" {
      EncodedPathHasNoSpace(path[1..], style);
    }
  }

  /** The words of a line, read as sscanf reads them. */
  lemma LineParses(verb: string, target: string, rest: string)
    requires verb != "" && |verb| <= 15 && NoSpace(verb)
    requires target != "" && NoSpace(target)
    ensures var behind := target + (" " + ("HTTP/1.1" + "\r\n" + rest));
            ParseRequest(verb + (" " + behind)) == Some(Request(verb, Decode(behind)[..Min(|Decode(behind)|, 511)]))
  {
    hide Decode, Word, SkipSpace;
    var version := "HTTP/1.1";
    var tail := version + "\r\n" + rest;
    var behind := target + (" " + tail);
    var s := verb + (" " + behind);
    assert !IsSpace(s[0]) && !IsSpace(behind[0]) && !IsSpace(tail[0]);
    SpaceSkipped(s);
    WordEnds(verb, " " + behind, 15);
    assert s[|verb|..] == " " + behind;
    SpaceSkipped(behind);
    WordEnds(target, " " + tail, |behind|);
    assert behind[|target|..] == " " + tail;
    SpaceSkipped(tail);
    VersionWord(rest);
  }

  lemma VersionWord(rest: string)
    ensures var w := Word("HTTP/1.1" + "\r\n" + rest, 15); w != "" && "HTTP" <= w
  {
    var w := "HTTP/1.1";
    assert w + "\r\n" + rest == w + ("\r\n" + rest);
    WordEnds(w, "\r\n" + rest, 15);
    assert w[..4] == "HTTP";
  }

  /** A request for an encoded path, with or without a query behind it, is announced with
      its method and the decoded path, of which the event holds 511 characters. */
  lemma RequestRoundTrip(verb: string, path: string, query: Option<string>, rest: string, style: Style)
    requires verb != "" && |verb| <= 15 && NoSpace(verb)
    requires path != "" && ByteText(path) && style.Valid() && style.plain !! {'\U{000B}', '\U{000C}'}
    requires query.Some? ==> NoSpace(query.value)
    ensures var target := Encode(path, style) + if query.Some? then "?" + query.value else "";
            ParseRequest(verb + (" " + (target + (" " + ("HTTP/1.1" + "\r\n" + rest)))))
            == Some(Request(verb, path[..Min(|path|, 511)]))
  {
    hide ParseRequest, Decode, Encode;
    var q := if query.Some? then "?" + query.value else "";
    var tail := " " + ("HTTP/1.1" + "\r\n" + rest);
    var target := Encode(path, style) + q;
    EncodedPathHasNoSpace(path, style);
    assert NoSpace(target) by {
      assert forall i :: 0 <= i < |q| ==> q[i] == '?' || (i > 0 && q[i] == query.value[i - 1]);
    }
    LineParses(verb, target, rest);
    assert target + tail == Encode(path, style) + (q + tail);
    DecodeEncode(path, style, q + tail);
  }

  /** Of a line of three words the third decides: it is a request exactly when that word
      starts with "HTTP", whatever version it names. */
  lemma VersionDecides(verb: string, target: string, version: string, rest: string)
    requires verb != "" && |verb| <= 15 && NoSpace(verb)
    requires target != "" && NoSpace(target) && version != "" && NoSpace(version)
    ensures var s := verb + (" " + (target + (" " + (version + ("\r\n" + rest)))));
            ParseRequest(s).Some? <==> |version| >= 4 && version[..4] == "HTTP"
  {
    hide Decode, Word, SkipSpace;
    var tail := version + ("\r\n" + rest);
    var behind := target + (" " + tail);
    var s := verb + (" " + behind);
    assert !IsSpace(s[0]) && !IsSpace(behind[0]) && !IsSpace(tail[0]);
    SpaceSkipped(s);
    WordEnds(verb, " " + behind, 15);
    assert s[|verb|..] == " " + behind;
    SpaceSkipped(behind);
    WordEnds(target, " " + tail, |behind|);
    assert behind[|target|..] == " " + tail;
    SpaceSkipped(tail);
    FrontOfWord(version, "\r\n" + rest);
    var w := Word(tail, 15);
    assert |w| == Min(|version|, 15) && forall i :: 0 <= i < |w| ==> w[i] == version[i];
    if |w| >= 4 { assert w[..4] == version[..4]; }
  }

  lemma FrontOfWord(word: string, rest: string)
    requires NoSpace(word) && rest != "" && IsSpace(rest[0])
    ensures Word(word + rest, 15) == word[..Min(|word|, 15)]
  {
    hide Word;
    if |word| <= 15 {
      assert word[..|word|] == word;
      WordEnds(word, rest, 15);
    } else {
      assert word + rest == word[..15] + (word[15..] + rest);
      WordEnds(word[..15], word[15..] + rest, 15);
    }
  }

  /** A line of two words, and nothing behind it, is none. */
  lemma TwoWordsAreNone(verb: string, target: string)
    requires verb != "" && |verb| <= 15 && NoSpace(verb) && target != "" && NoSpace(target)
    ensures ParseRequest(verb + (" " + (target + "\r\n\r\n"))) == None
  {
    hide Decode, Word, SkipSpace;
    var behind := target + "\r\n\r\n";
    var s := verb + (" " + behind);
    assert !IsSpace(s[0]) && !IsSpace(behind[0]);
    SpaceSkipped(s);
    WordEnds(verb, " " + behind, 15);
    assert s[|verb|..] == " " + behind;
    SpaceSkipped(behind);
    WordEnds(target, "\r\n\r\n", |behind|);
    assert behind[|target|..] == "\r\n\r\n";
    OnlySpace();
  }

  lemma OnlySpace()
    ensures SkipSpace("\r\n\r\n") == "" && Word("", 15) == ""
  {
    assert "\r\n\r\n"[1..] == "\n\r\n" && "\n\r\n"[1..] == "\r\n" && "\r\n"[1..] == "\n" && "\n"[1..] == "";
  }
}
