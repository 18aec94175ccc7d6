/** The auto-reply printer (pkg/worker/replier.go) and the mail parser of the SMTP server
    (pkg/smtp/server.go): text built by the one, read by the other. */
module MailText {
  import opened Common
  import opened Text

  // ------------------------------------------------------------------ the printer

  function Printed(sender: string, to: string, subject: string, body: string): string {
    "From: " + sender + "\r\n" + "To: " + to + "\r\n" + "Subject: Re: " + subject + "\r\n" + "\r\n" + body
  }

  datatype Mail = NoReply | Reply(text: string)

  /** The message-building part of SendReply. */
  method SendReply(fromAddress: string, to: string, subject: string, body: string) returns (mail: Mail)
    ensures mail == if body == "" then NoReply else Reply(Printed(fromAddress, to, subject, body))
  {
    if body == "" {
      return NoReply;
    }
    var message := "From: " + fromAddress + "\r\n";
    message := message + ("To: " + to + "\r\n");
    message := message + ("Subject: Re: " + subject + "\r\n");
    message := message + "\r\n";
    message := message + body;
    assert message == Printed(fromAddress, to, subject, body);
    return Reply(message);
  }

  // ------------------------------------------------------------------ the parser

  /** strings.ToLower, as far as the letters of "subject:" go: no other character has one of them as
      its lower case. */
  function Lower(c: char): char {
    if 'A' <= c <= 'Z' then c - 'A' + 'a' else c
  }

  predicate IsSubjectLine(line: string) {
    |line| >= 8 && forall k | 0 <= k < 8 :: Lower(line[k]) == "subject:"[k]
  }

  function TrimPrefix(s: string, prefix: string): string {
    if prefix <= s then s[|prefix|..] else s
  }

  function SubjectIn(lines: seq<string>): string {
    if lines == [] then "(no subject)"
    else
      var line := TrimSpace(lines[0]);
      if IsSubjectLine(line) then TrimSpace(TrimPrefix(line, "Subject:")) else SubjectIn(lines[1..])
  }

  function ExtractSubject(message: string): string {
    SubjectIn(Lines(message))
  }

  function ExtractBody(message: string): string {
    if Contains(message, "\n\n") then TrimSpace(AfterFirst(message, "\n\n"))
    else if Contains(message, "\r\n\r\n") then TrimSpace(AfterFirst(message, "\r\n\r\n"))
    else message
  }

  /** The second part of strings.SplitN(message, sep, 2). */
  function AfterFirst(message: string, sep: string): string
    requires Contains(message, sep)
  {
    IndexFinds(message, sep);
    message[Index(message, sep) + |sep|..]
  }

  // ------------------------------------------------------------------ what the parser finds in any message

  /** The body begins behind the first two adjacent line feeds; without those, behind the first blank line
      with carriage returns; without either it is the whole message. */
  lemma BodyOfAnyMessage(m: string)
    ensures forall i: nat | StartsFirstAt(m, "\n\n", i) :: ExtractBody(m) == TrimSpace(m[i + 2..])
    ensures StartsNowhere(m, "\n\n") ==>
              forall i: nat | StartsFirstAt(m, "\r\n\r\n", i) :: ExtractBody(m) == TrimSpace(m[i + 4..])
    ensures StartsNowhere(m, "\n\n") && StartsNowhere(m, "\r\n\r\n") ==> ExtractBody(m) == m
  {
    IndexIsFirst(m, "\n\n");
    IndexIsFirst(m, "\r\n\r\n");
  }

  /** Without its outer white space the line begins with "subject:" in any mix of cases. */
  predicate NamesSubject(line: string) {
    var t := TrimSpace(line);
    |t| >= 8 && forall k | 0 <= k < 8 :: t[k] == "subject:"[k] || t[k] == "SUBJECT:"[k]
  }

  lemma SubjectLineNames(line: string)
    ensures IsSubjectLine(TrimSpace(line)) <==> NamesSubject(line)
  {
    var t := TrimSpace(line);
    if |t| >= 8 {
      forall k | 0 <= k < 8
        ensures Lower(t[k]) == "subject:"[k] <==> t[k] == "subject:"[k] || t[k] == "SUBJECT:"[k]
      {
        UpperAndLower(t[k], k);
      }
    }
  }

  lemma UpperAndLower(c: char, k: nat)
    requires k < 8
    ensures Lower(c) == "subject:"[k] <==> c == "subject:"[k] || c == "SUBJECT:"[k]
  {
  }

  /** The subject is that of the first line that names one: what follows "Subject:" when it is spelled so,
      and otherwise the whole line. Without such a line it is "(no subject)". */
  lemma {:induction false} SubjectInAnyLines(lines: seq<string>)
    ensures (forall l | l in lines :: !NamesSubject(l)) ==> SubjectIn(lines) == "(no subject)"
    ensures forall k | 0 <= k < |lines| && NamesSubject(lines[k])
                       && (forall j | 0 <= j < k :: !NamesSubject(lines[j])) ::
              var t := TrimSpace(lines[k]);
              SubjectIn(lines) == if t[..8] == "Subject:" then TrimSpace(t[8..]) else t
  {
    if lines != [] {
      SubjectInAnyLines(lines[1..]);
      SubjectLineNames(lines[0]);
      TrimSpaceIdempotent(lines[0]);
      assert forall j | 0 < j < |lines| :: lines[j] == lines[1..][j - 1];
      assert lines[0] in lines && forall l | l in lines[1..] :: l in lines;
      var t := TrimSpace(lines[0]);
      if NamesSubject(lines[0]) {
        assert "Subject:" <= t <==> t[..8] == "Subject:";
      }
    }
  }

  lemma SubjectOfAnyMessage(m: string)
    ensures (forall l | l in Lines(m) :: !NamesSubject(l)) ==> ExtractSubject(m) == "(no subject)"
    ensures forall k | 0 <= k < |Lines(m)| && NamesSubject(Lines(m)[k])
                       && (forall j | 0 <= j < k :: !NamesSubject(Lines(m)[j])) ::
              var t := TrimSpace(Lines(m)[k]);
              ExtractSubject(m) == if t[..8] == "Subject:" then TrimSpace(t[8..]) else t
  {
    SubjectInAnyLines(Lines(m));
  }

  // ------------------------------------------------------------------ ink: the characters that are not space

  function Ink(s: string): nat {
    if s == "" then 0 else (if IsSpace(s[0]) then 0 else 1) + Ink(s[1..])
  }

  lemma {:induction false} InkAdds(s: string, t: string)
    ensures Ink(s + t) == Ink(s) + Ink(t)
  {
    if s == "" {
      assert s + t == t;
    } else {
      assert (s + t)[1..] == s[1..] + t;
      InkAdds(s[1..], t);
    }
  }

  lemma {:induction false} NoInkIsSpace(s: string)
    ensures Ink(s) == 0 <==> AllSpace(s)
  {
    if s != "" {
      NoInkIsSpace(s[1..]);
      assert s == [s[0]] + s[1..];
    }
  }

  lemma TrimKeepsInk(s: string)
    ensures Ink(TrimSpace(s)) == Ink(s)
  {
    var a, b := TrimSpaceSplits(s);
    InkAdds(a + TrimSpace(s), b);
    InkAdds(a, TrimSpace(s));
    NoInkIsSpace(a);
    NoInkIsSpace(b);
  }

  /** Cutting `cut` off either end of a text leaves its TrimSpace alone exactly when `cut` is all space. */
  lemma CuttingSpace(cut: string, s: string)
    ensures TrimSpace(cut + s) == TrimSpace(s) <==> AllSpace(cut)
    ensures TrimSpace(s + cut) == TrimSpace(s) <==> AllSpace(cut)
  {
    InkAdds(cut, s);
    InkAdds(s, cut);
    NoInkIsSpace(cut);
    TrimKeepsInk(cut + s);
    TrimKeepsInk(s + cut);
    TrimKeepsInk(s);
    if AllSpace(cut) {
      TrimSpaceIgnoresSpace(cut, s, "");
      TrimSpaceIgnoresSpace("", s, cut);
      assert cut + s + "" == cut + s && "" + s + cut == s + cut;
    }
  }

  // ------------------------------------------------------------------ subject round trip

  /** A text that opens with a visible character keeps it under TrimSpace. */
  lemma OpensVisibly(text: string)
    requires text != "" && !IsSpace(text[0])
    ensures TrimSpace(text) == TrimRight(text)
    ensures TrimSpace(text) != "" && TrimSpace(text)[0] == text[0]
  {
    var b := TrimRightSplits(text);
    TrimKeepsInk(text);
    assert TrimLeft(text) == text;
    assert Ink(text) >= 1;
  }

  /** A line that opens with a visible character other than S or s is not a subject line. */
  lemma NotSubject(line: string)
    requires line != "" && !IsSpace(line[0]) && Lower(line[0]) != 's'
    ensures !IsSubjectLine(TrimSpace(line))
  {
    OpensVisibly(line);
    assert "subject:"[0] == 's';
  }

  /** The line "Subject: " followed by a text that starts visibly. */
  lemma SubjectLine(text: string)
    requires text != "" && !IsSpace(text[0])
    ensures var line := TrimSpace("Subject: " + text);
            IsSubjectLine(line) && TrimSpace(TrimPrefix(line, "Subject:")) == TrimSpace(text)
  {
    TrimmedSubjectLine(text);
    var t := TrimSpace(text);
    var line := "Subject: " + t;
    LooksLikeSubject(t);
    assert TrimPrefix(line, "Subject:") == " " + t + "" by {
      assert line[..8] == "Subject:" && line[8..] == " " + t;
    }
    OpensVisibly(text);
    var b := TrimRightSplits(text);
    TrimSpaceIs(" ", t, "");
  }

  lemma TrimmedSubjectLine(text: string)
    requires text != "" && !IsSpace(text[0])
    ensures TrimSpace("Subject: " + text) == "Subject: " + TrimSpace(text)
  {
    OpensVisibly(text);
    var b := TrimRightSplits(text);
    var t := TrimSpace(text);
    var line := "Subject: " + t;
    assert line[|line| - 1] == t[|t| - 1];
    TrimSpaceIs("", line, b);
    Regroup("Subject: ", t, b);
    assert "" + line + b == line + b;
  }

  lemma LooksLikeSubject(t: string)
    ensures IsSubjectLine("Subject: " + t)
  {
    var line := "Subject: " + t;
    forall k | 0 <= k < 8
      ensures Lower(line[k]) == "subject:"[k]
    {
      assert line[k] == "Subject:"[k];
    }
  }

  lemma SkipLine(line: string, rest: string)
    requires '\n' !in line && line != "" && !IsSpace(line[0]) && Lower(line[0]) != 's'
    ensures ExtractSubject(line + "\n" + rest) == ExtractSubject(rest)
  {
    LinesOfLine(line, rest);
    NotSubject(line);
    assert ([line] + Lines(rest))[1..] == Lines(rest);
  }

  lemma SkipAddresses(sender: string, to: string, subject: string, body: string)
    requires '\n' !in sender && '\n' !in to
    ensures ExtractSubject(Printed(sender, to, subject, body))
         == ExtractSubject("Subject: Re: " + subject + "\r\n" + "\r\n" + body)
  {
    var l1, l2 := "From: " + sender + "\r", "To: " + to + "\r";
    var tail := "Subject: Re: " + subject + "\r\n" + "\r\n" + body;
    assert Printed(sender, to, subject, body) == l1 + "\n" + (l2 + "\n" + tail) by {
      PrintedLines(sender, to, subject, body);
    }
    SkipLine(l1, l2 + "\n" + tail);
    SkipLine(l2, tail);
  }

  /** The printed message, line by line. */
  lemma LinesPrinted(sender: string, to: string, subject: string, body: string)
    requires '\n' !in sender && '\n' !in to && '\n' !in subject
    ensures Lines(Printed(sender, to, subject, body)) ==
              ["From: " + sender + "\r", "To: " + to + "\r", "Subject: Re: " + subject + "\r", "\r"] + Lines(body)
  {
    PrintedLines(sender, to, subject, body);
    SubjectThenBody("Subject: Re: " + subject, body);
    NoFeed("From: ", sender);
    NoFeed("To: ", to);
    NoFeed("Subject: Re: ", subject);
    FourLines("From: " + sender + "\r", "To: " + to + "\r", "Subject: Re: " + subject + "\r", "\r", body);
  }

  lemma NoFeed(name: string, value: string)
    requires '\n' !in name && '\n' !in value
    ensures '\n' !in name + value + "\r"
  {
  }

  lemma FourLines(l1: string, l2: string, l3: string, l4: string, rest: string)
    requires '\n' !in l1 && '\n' !in l2 && '\n' !in l3 && '\n' !in l4
    ensures Lines(l1 + "\n" + (l2 + "\n" + (l3 + "\n" + (l4 + "\n" + rest)))) == [l1, l2, l3, l4] + Lines(rest)
  {
    var w4 := l4 + "\n" + rest;
    TwoLines(l3, l4, rest);
    TwoLines(l1, l2, l3 + "\n" + w4);
    Regroup([l1, l2], [l3, l4], Lines(rest));
    assert [l1, l2] + [l3, l4] == [l1, l2, l3, l4];
  }

  lemma TwoLines(l1: string, l2: string, rest: string)
    requires '\n' !in l1 && '\n' !in l2
    ensures Lines(l1 + "\n" + (l2 + "\n" + rest)) == [l1, l2] + Lines(rest)
  {
    LinesOfLine(l1, l2 + "\n" + rest);
    LinesOfLine(l2, rest);
    Regroup([l1], [l2], Lines(rest));
  }

  lemma SubjectThenBody(subject: string, body: string)
    ensures subject + "\r\n" + "\r\n" + body == subject + "\r" + "\n" + ("\r" + "\n" + body)
  {
  }

  lemma PrintedLines(sender: string, to: string, subject: string, body: string)
    ensures Printed(sender, to, subject, body) ==
              ("From: " + sender + "\r") + "\n"
              + (("To: " + to + "\r") + "\n" + ("Subject: Re: " + subject + "\r\n" + "\r\n" + body))
  {
  }

  lemma FirstLineWins(text: string, more: string)
    requires '\n' !in text && text != "" && !IsSpace(text[0])
    ensures ExtractSubject("Subject: " + text + "\n" + more) == TrimSpace(text)
  {
    LinesOfLine("Subject: " + text, more);
    SubjectLine(text);
  }

  lemma SubjectParsed(sender: string, to: string, subject: string, body: string)
    requires '\n' !in sender && '\n' !in to
    ensures ExtractSubject(Printed(sender, to, subject, body)) == TrimSpace("Re: " + subject[..LineEnd(subject)])
  {
    SkipAddresses(sender, to, subject, body);
    Regroup("Subject: Re: " + subject + "\r\n", "\r\n", body);
    UpToLineFeed(subject, "\r\n" + body);
  }

  /** Behind addresses without a line feed, the parser finds the printed subject up to its first line
      feed: it is the whole printed subject exactly when only white space follows that line feed. */
  lemma SubjectRoundTrip(sender: string, to: string, subject: string, body: string)
    requires '\n' !in sender && '\n' !in to
    ensures var parsed := ExtractSubject(Printed(sender, to, subject, body));
            && parsed == TrimSpace("Re: " + subject[..LineEnd(subject)])
            && (parsed == TrimSpace("Re: " + subject) <==> AllSpace(subject[LineEnd(subject)..]))
  {
    var n := LineEnd(subject);
    var head, rest := "Re: " + subject[..n], subject[n..];
    SubjectParsed(sender, to, subject, body);
    CuttingSpace(rest, head);
    assert head + rest == "Re: " + subject by {
      SplitAt(subject, n);
    }
  }

  lemma SplitAt(subject: string, n: nat)
    requires n <= |subject|
    ensures "Re: " + subject[..n] + subject[n..] == "Re: " + subject
  {
    Regroup("Re: ", subject[..n], subject[n..]);
    assert subject[..n] + subject[n..] == subject;
  }

  lemma UpToLineFeed(subject: string, more: string)
    ensures ExtractSubject("Subject: Re: " + subject + "\r\n" + more) == TrimSpace("Re: " + subject[..LineEnd(subject)])
  {
    Regroup("Subject: Re: " + subject, "\r\n", more);
    if LineEnd(subject) == |subject| {
      assert subject[..LineEnd(subject)] == subject;
      WholeSubject(subject, "\r\n" + more, more);
    } else {
      CutSubject(subject, LineEnd(subject), "\r\n" + more);
    }
  }

  lemma WholeSubject(subject: string, end: string, more: string)
    requires '\n' !in subject && end == "\r\n" + more
    ensures ExtractSubject("Subject: Re: " + subject + end) == TrimSpace("Re: " + subject)
  {
    var whole, text := "Subject: Re: " + subject + end, "Re: " + subject + "\r";
    assert whole == "Subject: " + text + "\n" + more by {
      WholeSubjectLine(subject, end, more);
    }
    assert text[0] == 'R';
    FirstLineWinsIn(whole, text, more);
    CuttingSpace("\r", "Re: " + subject);
  }

  lemma WholeSubjectLine(subject: string, end: string, more: string)
    requires end == "\r\n" + more
    ensures "Subject: Re: " + subject + end == "Subject: " + ("Re: " + subject + "\r") + "\n" + more
  {
    assert "Subject: Re: " == "Subject: " + "Re: " && "\r\n" == "\r" + "\n";
    RegroupLine("Subject: ", "Re: ", subject, "\r", "\n", more);
  }

  lemma FirstLineWinsIn(whole: string, text: string, more: string)
    requires whole == "Subject: " + text + "\n" + more
    requires '\n' !in text && text != "" && !IsSpace(text[0])
    ensures ExtractSubject(whole) == TrimSpace(text)
  {
    FirstLineWins(text, more);
  }

  lemma RegroupLine(p: string, q: string, s: string, cr: string, lf: string, more: string)
    ensures p + q + s + (cr + lf + more) == p + (q + s + cr) + lf + more
  {
  }

  lemma RegroupCut(p: string, q: string, s: string, lf: string, t: string, end: string)
    ensures p + q + (s + lf + t) + end == p + (q + s) + lf + (t + end)
  {
  }

  /** The text before a first line feed, printed behind "Re: ", is one line. */
  lemma NoLineFeed(subject: string, end: string)
    requires '\n' !in end
    ensures '\n' !in "Re: " + subject[..LineEnd(subject)] + end
  {
    assert forall c | c in subject[..LineEnd(subject)] :: c != '\n';
  }

  lemma CutSubject(subject: string, n: nat, end: string)
    requires n == LineEnd(subject) < |subject|
    ensures ExtractSubject("Subject: Re: " + subject + end) == TrimSpace("Re: " + subject[..n])
  {
    var whole, text := "Subject: Re: " + subject + end, "Re: " + subject[..n];
    assert '\n' !in text by {
      NoLineFeed(subject, "");
      assert text + "" == text;
    }
    assert whole == "Subject: " + text + "\n" + (subject[n + 1..] + end) by {
      CutSubjectLine(subject, n, end);
    }
    assert text[0] == 'R';
    FirstLineWinsIn(whole, text, subject[n + 1..] + end);
  }

  lemma CutSubjectLine(subject: string, n: nat, end: string)
    requires n < |subject| && subject[n] == '\n'
    ensures "Subject: Re: " + subject + end == "Subject: " + ("Re: " + subject[..n]) + "\n" + (subject[n + 1..] + end)
  {
    assert subject == subject[..n] + "\n" + subject[n + 1..];
    assert "Subject: Re: " == "Subject: " + "Re: ";
    RegroupCut("Subject: ", "Re: ", subject[..n], "\n", subject[n + 1..], end);
  }

  /** What the parser returns as a subject never contains a line feed, so a stored subject can always
      be printed into a reply and read back. */
  lemma {:induction false} SubjectIsOneLine(lines: seq<string>)
    requires forall l | l in lines :: '\n' !in l
    ensures '\n' !in SubjectIn(lines)
  {
    if lines != [] {
      var line := TrimSpace(lines[0]);
      TrimOnlyDrops(lines[0]);
      if IsSubjectLine(line) {
        var text := TrimPrefix(line, "Subject:");
        assert forall c | c in text :: c in line;
        TrimOnlyDrops(text);
      } else {
        SubjectIsOneLine(lines[1..]);
      }
    }
  }

  lemma TrimOnlyDrops(s: string)
    ensures forall c | c in TrimSpace(s) :: c in s
  {
    var a, b := TrimSpaceSplits(s);
    assert forall c | c in TrimSpace(s) :: c in a + TrimSpace(s) + b;
  }

  lemma ReplyToStoredSubject(message: string, sender: string, to: string, body: string)
    requires '\n' !in sender && '\n' !in to
    ensures var subject := ExtractSubject(message);
            ExtractSubject(Printed(sender, to, subject, body)) == TrimSpace("Re: " + subject)
  {
    var subject := ExtractSubject(message);
    LinesCut(message);
    SubjectIsOneLine(Lines(message));
    SubjectRoundTrip(sender, to, subject, body);
    OneLineEnds(subject);
  }

  lemma {:induction false} OneLineEnds(s: string)
    requires '\n' !in s
    ensures LineEnd(s) == |s|
  {
    if s != "" {
      assert s[0] in s;
      OneLineEnds(s[1..]);
    }
  }

  // ------------------------------------------------------------------ body round trip

  function Header(sender: string, to: string, subject: string): string {
    "From: " + sender + "\r\n" + "To: " + to + "\r\n" + "Subject: Re: " + subject + "\r\n" + "\r\n"
  }

  /** Ends in an empty line, and has no two line feeds closer to each other before that. */
  ghost predicate Spaced(h: string) {
    && |h| >= 4 && h[|h| - 4..] == "\r\n\r\n"
    && (forall k | 0 <= k < |h| - 1 :: h[k] == '\n' ==> h[k + 1] != '\n')
    && (forall k | 0 <= k < |h| - 3 :: h[k] == '\n' ==> h[k + 2] != '\n')
  }

  /** The header has four line feeds; the last two stand two apart, the others further. */
  lemma HeaderLineFeeds(sender: string, to: string, subject: string)
    requires '\n' !in sender && '\n' !in to && '\n' !in subject
    ensures Spaced(Header(sender, to, subject))
  {
    var l1, l2, l3 := "From: " + sender + "\r", "To: " + to + "\r", "Subject: Re: " + subject + "\r";
    HeaderOfLines(sender, to, subject);
    ThreeLines(l1, l2, l3);
  }

  lemma HeaderOfLines(sender: string, to: string, subject: string)
    ensures Header(sender, to, subject)
         == ("From: " + sender + "\r") + "\n" + ("To: " + to + "\r") + "\n" + ("Subject: Re: " + subject + "\r")
             + "\n" + "\r\n"
  {
  }

  lemma ThreeLines(l1: string, l2: string, l3: string)
    requires '\n' !in l1 && '\n' !in l2 && '\n' !in l3 && |l2| > 3 && |l3| > 3 && l3[|l3| - 1] == '\r'
    ensures Spaced(l1 + "\n" + l2 + "\n" + l3 + "\n" + "\r\n")
  {
    var h := l1 + "\n" + l2 + "\n" + l3 + "\n" + "\r\n";
    var p1, p2, p3 := |l1|, |l1| + 1 + |l2|, |l1| + 1 + |l2| + 1 + |l3|;
    assert h[..p1] == l1;
    assert h[p1 + 1..p2] == l2;
    assert h[p2 + 1..p3] == l3;
    assert h[p3 - 1..] == "\r\n\r\n";
    FeedsAt(h, p1, p2, p3);
  }

  /** The line feeds of a header stand at p1, p2, p3 and p3 + 2. */
  lemma FeedsAt(h: string, p1: nat, p2: nat, p3: nat)
    requires p1 + 3 < p2 && p2 + 3 < p3 && p3 + 3 == |h| && h[p3 - 1..] == "\r\n\r\n"
    requires '\n' !in h[..p1] && '\n' !in h[p1 + 1..p2] && '\n' !in h[p2 + 1..p3]
    ensures Spaced(h)
  {
    assert h[p3 - 1..][2] == '\r' && h[p3 - 1..][2] == h[p3 + 1];
    forall k | 0 <= k < p3
      ensures h[k] == '\n' ==> k == p1 || k == p2
    {
      if k < p1 {
        assert h[..p1][k] == h[k];
      } else if p1 < k < p2 {
        assert h[p1 + 1..p2][k - p1 - 1] == h[k];
      } else if p2 < k {
        assert h[p2 + 1..p3][k - p2 - 1] == h[k];
      }
    }
  }

  /** Where the parser cuts a printed message whose header values have no line feed. */
  lemma BodyCut(sender: string, to: string, subject: string, body: string)
    requires '\n' !in sender && '\n' !in to && '\n' !in subject
    ensures ExtractBody(Printed(sender, to, subject, body)) ==
              if body != "" && body[0] == '\n' then TrimSpace(body[1..])
              else if Contains(body, "\n\n") then TrimSpace(AfterFirst(body, "\n\n"))
              else TrimSpace(body)
  {
    var h := Header(sender, to, subject);
    assert Printed(sender, to, subject, body) == h + body;
    HeaderLineFeeds(sender, to, subject);
    if body != "" && body[0] == '\n' {
      CutAtHeaderEnd(h, body);
    } else if Contains(body, "\n\n") {
      CutInBody(h, body);
    } else {
      CutAtBlankLine(h, body);
    }
  }

  lemma CutAtHeaderEnd(h: string, body: string)
    requires Spaced(h) && body != "" && body[0] == '\n'
    ensures ExtractBody(h + body) == TrimSpace(body[1..])
  {
    var m := h + body;
    assert m[|h| - 1..][..2] == "\n\n";
    NotBefore(h, body, |h| - 1);
    IndexIs(m, "\n\n", |h| - 1);
    assert m[|h| + 1..] == body[1..];
  }

  lemma CutInBody(h: string, body: string)
    requires Spaced(h) && Contains(body, "\n\n") && body[0] != '\n'
    ensures ExtractBody(h + body) == TrimSpace(AfterFirst(body, "\n\n"))
  {
    var m := h + body;
    IndexFinds(body, "\n\n");
    var i := Index(body, "\n\n");
    assert m[|h| + i..] == body[i..];
    IndexIs(m, "\n\n", |h| + i) by {
      NotBefore(h, body, |h| + i);
    }
    assert m[|h| + i + 2..] == body[i + 2..];
  }

  lemma CutAtBlankLine(h: string, body: string)
    requires Spaced(h) && !Contains(body, "\n\n") && (body != "" ==> body[0] != '\n')
    ensures ExtractBody(h + body) == TrimSpace(body)
  {
    var m := h + body;
    NotBefore(h, body, |m| + 1);
    IndexFinds(m, "\n\n");
    assert m[|h| - 4..][..4] == "\r\n\r\n";
    forall k | 0 <= k < |h| - 4
      ensures !("\r\n\r\n" <= m[k..])
    {
      assert m[k..][1] == h[k + 1] && m[k..][3] == h[k + 3];
      NotBlankLine(m[k..]);
    }
    IndexIs(m, "\r\n\r\n", |h| - 4);
    assert m[|h|..] == body;
  }

  /** No "\n\n" starts inside the header, apart from its last line feed with a body that opens with one. */
  lemma NotBefore(h: string, body: string, end: nat)
    requires Spaced(h)
    requires end <= |h| + |body| + 1
    requires body != "" && body[0] == '\n' ==> end <= |h| - 1
    requires end > |h| ==> end - |h| <= Index(body, "\n\n")
    ensures forall k :: 0 <= k < end && k <= |h + body| ==> !("\n\n" <= (h + body)[k..])
  {
    var m := h + body;
    IndexFinds(body, "\n\n");
    forall k | 0 <= k < end && k <= |m|
      ensures !("\n\n" <= m[k..])
    {
      if k >= |h| {
        assert m[k..] == body[k - |h|..];
      } else if k == |h| - 1 {
        assert body != "" ==> m[k..][1] == body[0];
        NotTwoFeeds(m[k..]);
      } else {
        assert m[k..][0] == h[k] && m[k..][1] == h[k + 1];
        NotTwoFeeds(m[k..]);
      }
    }
  }

  lemma NotTwoFeeds(s: string)
    requires |s| < 2 || s[0] != '\n' || s[1] != '\n'
    ensures !("\n\n" <= s)
  {
    var sep := "\n\n";
    assert sep[0] == '\n' && sep[1] == '\n';
  }

  lemma NotBlankLine(s: string)
    requires |s| >= 4 && (s[1] != '\n' || s[3] != '\n')
    ensures !("\r\n\r\n" <= s)
  {
    var sep := "\r\n\r\n";
    assert sep[1] == '\n' && sep[3] == '\n';
  }

  /** The parser gives back the printed body exactly when the body opens with a line feed, or has no
      two adjacent ones, or has nothing but white space before the first two. */
  lemma BodyRoundTrip(sender: string, to: string, subject: string, body: string)
    requires '\n' !in sender && '\n' !in to && '\n' !in subject
    ensures ExtractBody(Printed(sender, to, subject, body)) == TrimSpace(body) <==>
            || (body != "" && body[0] == '\n')
            || !Contains(body, "\n\n")
            || AllSpace(body[..Index(body, "\n\n")])
  {
    BodyCut(sender, to, subject, body);
    if body != "" && body[0] == '\n' {
      assert TrimSpace(body[1..]) == TrimSpace(body) by {
        CuttingSpace("\n", body[1..]);
        assert body == "\n" + body[1..];
      }
    } else if Contains(body, "\n\n") {
      IndexFinds(body, "\n\n");
      SpaceBeforeCut(body, Index(body, "\n\n"));
    }
  }

  lemma SpaceBeforeCut(body: string, i: nat)
    requires i + 2 <= |body| && "\n\n" <= body[i..]
    ensures TrimSpace(body[i + 2..]) == TrimSpace(body) <==> AllSpace(body[..i])
  {
    var before, after := body[..i], body[i + 2..];
    assert body == (before + "\n\n") + after by {
      assert body[i..][..2] == "\n\n" && body[i..][2..] == after;
    }
    CuttingSpace(before + "\n\n", after);
    assert forall c | c in before :: c in before + "\n\n";
  }
}
