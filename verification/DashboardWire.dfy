/** Fetching the sections of a stored dashboard: the client lists the sections it wants (fetch in
    src/ui/Dashboard.cpp), the service answers with length-prefixed frames (the Get handler in
    src/service/dashboard/dashboardWorker.hpp), and the client cuts the reply up again.
    A char stands for a byte. */
module DashboardWire {
  import opened Shared

  datatype What = Header | Flowgraph

  /** A stored dashboard: any bytes, separators and digits included. */
  datatype Dashboard = Dashboard(header: string, flowgraph: string)

  /** Which of the callbacks of fetch is scheduled; Broken where its assertion on the reply fails or
      the reply ends inside a section. */
  datatype Outcome = Success(reply: seq<string>) | Failed | Broken

  // ---- text ----

  /** The position of the first c, or the end. */
  function Find(s: string, c: char): (i: nat)
    ensures i <= |s| && c !in s[..i] && (i < |s| ==> s[i] == c)
  {
    if s == [] || s[0] == c then 0 else
      var i := Find(s[1..], c) + 1;
      assert s[..i] == [s[0]] + s[1..][..i - 1];
      i
  }

  lemma {:induction false} FindAfter(p: string, c: char, rest: string)
    requires c !in p
    ensures Find(p + [c] + rest, c) == |p|
  {
    var s := p + [c] + rest;
    if p != [] {
      FindAfter(p[1..], c, rest);
      assert s[1..] == p[1..] + [c] + rest;
    }
  }

  lemma FindNone(p: string, c: char)
    requires c !in p
    ensures Find(p, c) == |p|
  {
  }

  predicate IsDigit(c: char) { '0' <= c <= '9' }

  /** std::to_string of a size. */
  function Digits(n: nat): string {
    if n < 10 then [('0' as int + n) as char] else Digits(n / 10) + [('0' as int + n % 10) as char]
  }

  /** std::from_chars: the number in the leading digits, 0 without any. */
  function FromChars(t: string, acc: nat): nat {
    if t == [] || !IsDigit(t[0]) then acc else FromChars(t[1..], acc * 10 + (t[0] as int - '0' as int))
  }

  lemma {:induction false} FromCharsStep(t: string, d: char, acc: nat)
    requires IsDigit(d) && forall k :: 0 <= k < |t| ==> IsDigit(t[k])
    ensures FromChars(t + [d], acc) == FromChars(t, acc) * 10 + (d as int - '0' as int)
  {
    if t == [] {
      assert FromChars([d][1..], acc * 10 + (d as int - '0' as int)) == acc * 10 + (d as int - '0' as int);
    } else {
      assert (t + [d])[1..] == t[1..] + [d];
      FromCharsStep(t[1..], d, acc * 10 + (t[0] as int - '0' as int));
    }
  }

  /** Reading a printed size gives the size back. */
  lemma {:induction false} PrintedSizeReads(n: nat)
    ensures FromChars(Digits(n), 0) == n && |Digits(n)| > 0
    ensures forall k :: 0 <= k < |Digits(n)| ==> IsDigit(Digits(n)[k])
  {
    if n < 10 {
      FromCharsStep([], ('0' as int + n) as char, 0);
      assert [] + Digits(n) == Digits(n);
    } else {
      PrintedSizeReads(n / 10);
      FromCharsStep(Digits(n / 10), ('0' as int + n % 10) as char, 0);
    }
  }

  // ---- the request ----

  function Name(w: What): (s: string)
    ensures ',' !in s
  {
    match w case Header => "header" case Flowgraph => "flowgraph"
  }

  /** The names of the sections with commas between them. */
  function Join(what: seq<What>): string {
    if what == [] then "" else if |what| == 1 then Name(what[0]) else Name(what[0]) + [','] + Join(what[1..])
  }

  lemma {:induction false} JoinStep(what: seq<What>, w: What)
    ensures Join(what + [w]) == if what == [] then Name(w) else Join(what) + [','] + Name(w)
  {
    if what == [] {
      assert [] + [w] == [w];
    } else {
      assert (what + [w])[1..] == what[1..] + [w];
      JoinStep(what[1..], w);
    }
  }

  /** The names as they go over the wire. */
  lemma NamesOnTheWire()
    ensures Join([Header]) == "header" && Join([Flowgraph]) == "flowgraph"
    ensures Join([Header, Flowgraph]) == "header,flowgraph"
  {
    JoinStep([], Header);
    JoinStep([Header], Flowgraph);
    assert [Header] + [Flowgraph] == [Header, Flowgraph];
  }

  method BuildWhat(what: seq<What>) returns (whatStr: string)
    ensures whatStr == Join(what)
  {
    whatStr := "";
    for i := 0 to |what|
      invariant whatStr == Join(what[..i])
    {
      JoinStep(what[..i], what[i]);
      assert what[..i] + [what[i]] == what[..i + 1];
      if i > 0 {
        whatStr := whatStr + [','];
      }
      whatStr := whatStr + Name(what[i]);
    }
    assert what[..|what|] == what;
  }

  // ---- the service ----

  function SectionNamed(ds: Dashboard, w: string): string {
    if w == "flowgraph" then ds.flowgraph else ds.header
  }

  /** The section for every part between commas; a name that is not known means the header. */
  function Answers(ds: Dashboard, what: string): (r: seq<string>)
    ensures |r| > 0
    decreases |what|
  {
    var p := Find(what, ',');
    [SectionNamed(ds, what[..p])] + if p == |what| then [] else Answers(ds, what[p + 1..])
  }

  function Framed(s: string): string {
    Digits(|s|) + [';'] + s
  }

  function Body(sections: seq<string>): string {
    if sections == [] then "" else Framed(sections[0]) + Body(sections[1..])
  }

  lemma {:induction false} BodyStep(sections: seq<string>, s: string)
    ensures Body(sections + [s]) == Body(sections) + Framed(s)
  {
    if sections == [] {
      assert [] + [s] == [s] && [s][1..] == [];
      assert Body([s]) == Framed(s) + Body([]);
    } else {
      assert (sections + [s])[1..] == sections[1..] + [s];
      BodyStep(sections[1..], s);
    }
  }

  lemma AnswersStep(ds: Dashboard, view: string, split: nat, done: seq<string>)
    requires split == Find(view, ',')
    ensures done + Answers(ds, view) ==
            done + [SectionNamed(ds, view[..split])] + if split == |view| then [] else Answers(ds, view[split + 1..])
  {
  }

  method HandleGet(ds: Dashboard, what: string) returns (body: string)
    ensures body == Body(Answers(ds, what))
  {
    hide Answers, Body, Digits, Find;
    body := "";
    var view := what;
    ghost var done: seq<string> := [];
    assert body == Body(done) by { NoSections(); }
    while true
      invariant done + Answers(ds, view) == Answers(ds, what)
      invariant body == Body(done)
      decreases |view|
    {
      var split := Find(view, ',');
      var w := view[..split];
      var section := if w == "flowgraph" then ds.flowgraph else ds.header;
      BodyStep(done, section);
      AnswersStep(ds, view, split, done);
      body := Append(body, section);
      done := done + [section];
      if split == |view| {
        assert done + [] == done;
        break;
      }
      view := view[split + 1..];
    }
  }

  lemma NoSections()
    ensures Body([]) == ""
  {
  }

  /** The lambda that appends one frame to the body. */
  function Append(body: string, s: string): (r: string)
    ensures r == body + Framed(s)
  {
    assert body + Digits(|s|) + [';'] + s == body + (Digits(|s|) + [';'] + s);
    body + Digits(|s|) + [';'] + s
  }

  function SectionOf(ds: Dashboard, w: What): string {
    match w case Header => ds.header case Flowgraph => ds.flowgraph
  }

  /** The sections in the order of the request. */
  function Requested(ds: Dashboard, what: seq<What>): (r: seq<string>)
    ensures |r| == |what| && forall i :: 0 <= i < |what| ==> r[i] == SectionOf(ds, what[i])
  {
    seq(|what|, i requires 0 <= i < |what| => SectionOf(ds, what[i]))
  }

  /** The service cuts the client's list of names up into just the sections that the client meant. */
  lemma {:induction false} RequestUnderstood(ds: Dashboard, what: seq<What>)
    requires |what| > 0
    ensures Answers(ds, Join(what)) == Requested(ds, what)
  {
    var name, all := Name(what[0]), Join(what);
    if |what| == 1 {
      FindNone(name, ',');
    } else {
      var rest := Join(what[1..]);
      FindAfter(name, ',', rest);
      assert all[..|name|] == name && all[|name| + 1..] == rest;
      RequestUnderstood(ds, what[1..]);
      assert Requested(ds, what) == [SectionOf(ds, what[0])] + Requested(ds, what[1..]);
    }
  }

  // ---- the reply ----

  /** The first section of a reply and what follows it; None where the client's assertion fails or the
      reply ends inside the section. */
  function ParseOne(data: string): (r: Option<(string, string)>)
    ensures r.Some? ==> |r.value.0| + |r.value.1| < |data|
  {
    var p := Find(data, ';');
    if p == |data| then None
    else
      var size, rest := FromChars(data[..p], 0), data[p + 1..];
      if size > |rest| then None else Some((rest[..size], rest[size..]))
  }

  lemma OneFrameReads(s: string, more: string)
    ensures ParseOne(Framed(s) + more) == Some((s, more))
  {
    var data, digits := Framed(s) + more, Digits(|s|);
    PrintedSizeReads(|s|);
    FindAfter(digits, ';', s + more);
    assert data == digits + [';'] + (s + more);
    assert data[..|digits|] == digits && data[|digits| + 1..] == s + more;
  }

  function Prepend(first: seq<string>, sections: Option<seq<string>>): Option<seq<string>> {
    match sections case None => None case Some(more) => Some(first + more)
  }

  /** The first n sections of a reply. */
  function Parse(data: string, n: nat): Option<seq<string>> {
    if n == 0 then Some([])
    else match ParseOne(data)
         case None => None
         case Some((section, rest)) => Prepend([section], Parse(rest, n - 1))
  }

  /** The client reads back the sections that were framed, whatever they contain, and ignores what follows. */
  lemma {:induction false} FramesRead(sections: seq<string>, rest: string)
    ensures Parse(Body(sections) + rest, |sections|) == Some(sections)
  {
    hide ParseOne, Framed;
    if sections != [] {
      var more := Body(sections[1..]) + rest;
      OneFrameReads(sections[0], more);
      assert Body(sections) + rest == Framed(sections[0]) + more;
      FramesRead(sections[1..], rest);
      assert [sections[0]] + sections[1..] == sections;
    }
  }

  lemma PrependStep(first: seq<string>, section: string, sections: Option<seq<string>>)
    ensures Prepend(first, Prepend([section], sections)) == Prepend(first + [section], sections)
  {
    if sections.Some? {
      assert first + ([section] + sections.value) == first + [section] + sections.value;
    }
  }

  lemma ParseOneAt(data: string, s: nat, p: nat, size: nat)
    requires s <= |data| && p == Find(data[s..], ';')
    requires p < |data| - s ==> size == FromChars(data[s..][..p], 0)
    ensures ParseOne(data[s..]) ==
            if p == |data| - s || size > |data| - (s + p + 1) then None
            else Some((data[s + p + 1..s + p + 1 + size], data[s + p + 1 + size..]))
  {
    if p < |data| - s {
      var rest := data[s..][p + 1..];
      var t := s + p + 1;
      assert rest == data[t..];
      if size <= |rest| {
        assert rest[..size] == data[t..t + size] && rest[size..] == data[t + size..];
      }
    }
  }

  /** The loop over the sections, with s as the offset of the read pointer. */
  method ParseReply(data: string, n: nat) returns (ok: bool, reply: array<string>)
    ensures fresh(reply) && reply.Length == n
    ensures ok <==> Parse(data, n).Some?
    ensures ok ==> Parse(data, n) == Some(reply[..])
  {
    hide ParseOne, FromChars, Find, Prepend;
    reply := new string[n](_ => "");
    var s: nat := 0;
    assert data[0..] == data;
    NothingBefore(Parse(data, n));
    for i := 0 to n
      invariant s <= |data|
      invariant Parse(data, n) == Prepend(reply[..i], Parse(data[s..], n - i))
    {
      var p := Find(data[s..], ';');
      if p == |data[s..]| {
        ParseOneAt(data, s, p, 0);
        NoReply(reply[..i]);
        return false, reply;
      }
      var size := FromChars(data[s..][..p], 0);
      ParseOneAt(data, s, p, size);
      s := s + p + 1;
      if size > |data| - s {
        NoReply(reply[..i]);
        return false, reply;
      }
      PrependStep(reply[..i], data[s..s + size], Parse(data[s + size..], n - i - 1));
      reply[i] := data[s..s + size];
      s := s + size;
      assert reply[..i + 1] == reply[..i] + [reply[i]];
    }
    ok := true;
    assert reply[..n] == reply[..];
    NothingLeft(data[s..], reply[..]);
  }

  lemma NothingBefore(sections: Option<seq<string>>)
    ensures Prepend([], sections) == sections
  {
    if sections.Some? {
      assert [] + sections.value == sections.value;
    }
  }

  lemma NoReply(first: seq<string>)
    ensures Prepend(first, None) == None
  {
  }

  lemma NothingLeft(data: string, sections: seq<string>)
    ensures Prepend(sections, Parse(data, 0)) == Some(sections)
  {
    assert sections + [] == sections;
  }

  /** The reply callback; a reply without data leaves every section empty. */
  method HandleReply(data: Option<string>, n: nat) returns (outcome: Outcome)
    requires n > 0
    ensures data.None? ==> outcome == Failed
    ensures data.Some? ==> outcome == match Parse(data.value, n)
                             case None => Broken
                             case Some(sections) => if |sections[0]| == 0 then Failed else Success(sections)
  {
    if data.None? {
      return Failed;
    }
    var ok, reply := ParseReply(data.value, n);
    if !ok {
      return Broken;
    }
    if |reply[0]| == 0 {
      return Failed;
    }
    return Success(reply[..]);
  }

  /** A whole fetch; a dashboard that the service does not know is answered without data. The client gets
      exactly the sections it asked for, in order, unless the first of them is empty. */
  method Fetch(stored: Option<Dashboard>, what: seq<What>) returns (outcome: Outcome)
    requires |what| > 0
    ensures outcome.Success? <==> stored.Some? && |SectionOf(stored.value, what[0])| > 0
    ensures outcome.Success? ==> outcome.reply == Requested(stored.value, what)
    ensures !outcome.Broken?
  {
    var whatStr := BuildWhat(what);
    var data := None;
    if stored.Some? {
      var body := HandleGet(stored.value, whatStr);
      data := Some(body);
      RequestUnderstood(stored.value, what);
      FramesRead(Requested(stored.value, what), "");
      assert body + "" == body;
    }
    outcome := HandleReply(data, |what|);
  }
}
