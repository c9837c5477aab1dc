/** Cutting the two byte streams between the NAT and the pool server back into lines. */
module Framing {
  type Text = seq<char>

  /** What has been cut so far: the finished lines and the unfinished rest. */
  datatype Cut = Cut(lines: seq<Text>, tail: Text)

  /** The stream read one character at a time. */
  function Scan(c: Cut, s: Text): Cut
    decreases |s|
  {
    if s == [] then c
    else Scan(if s[0] == '\n' then Cut(c.lines + [c.tail], []) else Cut(c.lines, c.tail + [s[0]]), s[1..])
  }

  const START: Cut := Cut([], [])

  lemma {:induction false} ScanAppend(c: Cut, a: Text, b: Text)
    ensures Scan(c, a + b) == Scan(Scan(c, a), b)
    decreases |a|
  {
    if a == [] {
      assert a + b == b;
    } else {
      assert (a + b)[1..] == a[1..] + b;
      ScanAppend(if a[0] == '\n' then Cut(c.lines + [c.tail], []) else Cut(c.lines, c.tail + [a[0]]), a[1..], b);
    }
  }

  /** Lines finished earlier only stand in front. */
  lemma {:induction false} ScanLines(l: seq<Text>, c: Cut, s: Text)
    ensures Scan(Cut(l + c.lines, c.tail), s) == Cut(l + Scan(c, s).lines, Scan(c, s).tail)
    decreases |s|
  {
    if s != [] {
      var c' := if s[0] == '\n' then Cut(c.lines + [c.tail], []) else Cut(c.lines, c.tail + [s[0]]);
      assert l + (c.lines + [c.tail]) == (l + c.lines) + [c.tail];
      ScanLines(l, c', s[1..]);
    }
  }

  lemma {:induction false} ScanPlain(c: Cut, s: Text)
    requires '\n' !in s
    ensures Scan(c, s) == Cut(c.lines, c.tail + s)
    decreases |s|
  {
    if s == [] {
      assert c.tail + s == c.tail;
    } else {
      ScanPlain(Cut(c.lines, c.tail + [s[0]]), s[1..]);
      assert c.tail + [s[0]] + s[1..] == c.tail + s;
    }
  }

  lemma {:induction false} TailPlain(c: Cut, s: Text)
    requires '\n' !in c.tail
    ensures '\n' !in Scan(c, s).tail
    decreases |s|
  {
    if s != [] {
      TailPlain(if s[0] == '\n' then Cut(c.lines + [c.tail], []) else Cut(c.lines, c.tail + [s[0]]), s[1..]);
    }
  }

  /** Starting over on the unfinished rest followed by new text comes to the same as going on. */
  lemma Resume(c: Cut, s: Text)
    requires '\n' !in c.tail
    ensures Scan(c, s) == Cut(c.lines + Scan(START, c.tail + s).lines, Scan(START, c.tail + s).tail)
  {
    ScanPlain(START, c.tail);
    ScanAppend(START, c.tail, s);
    assert [] + c.tail == c.tail && c.lines + [] == c.lines;
    ScanLines(c.lines, Cut([], c.tail), s);
  }

  /** The pieces of s between newlines, the unfinished one last: what split("\n") gives in the server. */
  function Parts(s: Text): seq<Text> {
    Scan(START, s).lines + [Scan(START, s).tail]
  }

  lemma PartsWithout(s: Text)
    requires '\n' !in s
    ensures Parts(s) == [s]
  {
    ScanPlain(START, s);
    assert [] + s == s;
  }

  lemma PartsAt(s: Text, j: nat)
    requires j < |s| && s[j] == '\n' && '\n' !in s[..j]
    ensures Parts(s) == [s[..j]] + Parts(s[j + 1..])
  {
    var rest := s[j + 1..];
    assert s == s[..j] + s[j..];
    ScanAppend(START, s[..j], s[j..]);
    ScanPlain(START, s[..j]);
    assert [] + s[..j] == s[..j] && s[j..][1..] == rest;
    assert [] + [s[..j]] == [s[..j]];
    assert Scan(START, s) == Scan(Cut([s[..j]], []), rest);
    ScanLines([s[..j]], START, rest);
    assert [s[..j]] + [] == [s[..j]];
  }

  // ---- the receiver's splitter ----

  /** std::string::find of a newline, with |s| for npos. */
  method Find(s: Text, from: nat) returns (j: nat)
    requires from <= |s|
    ensures from <= j <= |s| && '\n' !in s[from..j]
    ensures j < |s| ==> s[j] == '\n'
  {
    j := from;
    while j < |s| && s[j] != '\n'
      invariant from <= j <= |s| && '\n' !in s[from..j]
    {
      j := j + 1;
    }
  }

  /** What the receiver's split gives: nothing at all when the text is empty or starts with a newline. */
  function Pieces(s: Text): seq<Text> {
    if s == [] || s[0] == '\n' then [] else Parts(s)
  }

  /** split in src/utils.hpp. */
  method Split(s: Text) returns (v: seq<Text>)
    ensures v == Pieces(s)
  {
    var i: nat := 0;
    var j := Find(s, 0);
    var tmp := s[..j];
    v := [];
    if |tmp| == 0 {
      return;
    }
    v := [tmp];
    if j == |s| {
      assert tmp == s;
      PartsWithout(s);
    } else {
      PartsAt(s, j);
    }
    while j != |s|
      invariant j <= |s| && (j < |s| ==> s[j] == '\n')
      invariant if j == |s| then v == Parts(s) else v + Parts(s[j + 1..]) == Parts(s)
      decreases |s| - j
    {
      i := j;
      j := j + 1;
      j := Find(s, j);
      ghost var rest := s[i + 1..];
      ghost var k := j - i - 1;
      assert rest[..k] == s[i + 1..j];
      if j == |s| {
        assert rest[..k] == rest;
        PartsWithout(rest);
        v := v + [s[i + 1..]];
        break;
      }
      PartsAt(rest, k);
      assert rest[k + 1..] == s[j + 1..];
      tmp := s[i..j];
      assert tmp[1..] == rest[..k];
      ghost var v0 := v;
      v := v + [tmp[1..]];
      assert v + Parts(s[j + 1..]) == v0 + ([tmp[1..]] + Parts(s[j + 1..]));
    }
  }

  /** The two splitters agree exactly on the texts that are not empty and do not start with a newline. */
  lemma SplittersAgree(s: Text)
    ensures Pieces(s) == Parts(s) <==> s != [] && s[0] != '\n'
  {
  }

  // ---- the two reassembly loops ----

  /** One end of the stream: the lines handed on so far and the text kept for the next read. */
  class Reassembly {
    var processed: seq<Text>
    var buffer: Text

    ghost function Seen(): Cut
      reads this
    {
      Cut(processed, buffer)
    }

    constructor ()
      ensures Seen() == START
    {
      processed, buffer := [], [];
    }

    /** server_data: every piece but the last is a message, the last is kept. */
    method ServerData(data: Text)
      requires '\n' !in buffer
      modifies this
      ensures '\n' !in buffer && Seen() == Scan(old(Seen()), data)
    {
      Resume(Seen(), data);
      TailPlain(Seen(), data);
      var indexing := Parts(buffer + data);
      var last := |indexing|;
      ghost var before := processed;
      var i := 0;
      while i <= last - 2
        invariant 0 <= i <= last - 1 && processed == before + indexing[..i] && buffer == old(buffer)
      {
        processed := processed + [indexing[i]];
        i := i + 1;
      }
      assert indexing[..last - 1] == Scan(START, buffer + data).lines;
      buffer := indexing[last - 1];
    }

    /** The receiver's loop body after recv; it is not defined when split gives no piece at all. */
    method ReceiverData(mesg: Text) returns (defined: bool)
      requires '\n' !in buffer
      modifies this
      ensures defined <==> old(buffer) + mesg != [] && (old(buffer) + mesg)[0] != '\n'
      ensures defined ==> '\n' !in buffer && Seen() == Scan(old(Seen()), mesg)
    {
      Resume(Seen(), mesg);
      TailPlain(Seen(), mesg);
      ghost var before := processed;
      buffer := buffer + mesg;
      ghost var b := buffer;
      var v := Split(buffer);
      var vend := |v|;
      var i := 0;
      while i < vend - 1
        invariant 0 <= i <= vend && (vend > 0 ==> i <= vend - 1) && processed == before + v[..i] && buffer == b
      {
        processed := processed + [v[i]];
        i := i + 1;
      }
      if vend == 0 {
        return false;
      }
      assert v[..vend - 1] == Scan(START, b).lines;
      if |v[vend - 1]| == 0 {
        buffer := [];
      } else {
        buffer := v[vend - 1];
      }
      defined := true;
    }
  }

  // ---- whole streams ----

  function Concat(chunks: seq<Text>): Text {
    if chunks == [] then [] else chunks[0] + Concat(chunks[1..])
  }

  datatype Outcome = Undefined | Defined(cut: Cut)

  /** The receiver over a whole sequence of reads. */
  function Receive(c: Cut, chunks: seq<Text>): Outcome
    decreases |chunks|
  {
    if chunks == [] then Defined(c)
    else if c.tail + chunks[0] == [] || (c.tail + chunks[0])[0] == '\n' then Undefined
    else Receive(Scan(c, chunks[0]), chunks[1..])
  }

  predicate NonEmpty(v: seq<Text>) {
    forall i :: 0 <= i < |v| ==> v[i] != []
  }

  lemma {:induction false} LinesGrow(c: Cut, s: Text)
    ensures c.lines <= Scan(c, s).lines
    decreases |s|
  {
    if s != [] {
      LinesGrow(if s[0] == '\n' then Cut(c.lines + [c.tail], []) else Cut(c.lines, c.tail + [s[0]]), s[1..]);
    }
  }

  lemma StartsEmpty(c: Cut, s: Text)
    requires c.tail == [] && s != [] && s[0] == '\n'
    ensures !NonEmpty(Scan(c, s).lines)
  {
    LinesGrow(Cut(c.lines + [[]], []), s[1..]);
    assert Scan(c, s).lines[|c.lines|] == [];
  }

  /** However the stream is cut into reads, the receiver hands on its lines and keeps its rest, if no line is empty. */
  lemma {:induction false} AnyCutting(c: Cut, chunks: seq<Text>)
    requires '\n' !in c.tail && NonEmpty(chunks) && NonEmpty(Scan(c, Concat(chunks)).lines)
    ensures Receive(c, chunks) == Defined(Scan(c, Concat(chunks)))
    decreases |chunks|
  {
    if chunks != [] {
      var a, rest := chunks[0], Concat(chunks[1..]);
      ScanAppend(c, a, rest);
      if c.tail == [] && a[0] == '\n' {
        StartsEmpty(c, Concat(chunks));
        assert false;
      }
      assert c.tail + a != [] && (c.tail + a)[0] != '\n';
      TailPlain(c, a);
      AnyCutting(Scan(c, a), chunks[1..]);
    }
  }

  /** Where an empty line shows up: a newline that nothing unfinished stands before. */
  lemma {:induction false} EmptyLineAt(c: Cut, s: Text) returns (k: nat)
    requires NonEmpty(c.lines) && !NonEmpty(Scan(c, s).lines)
    ensures k < |s| && s[k] == '\n' && Scan(c, s[..k]).tail == [] && NonEmpty(Scan(c, s[..k]).lines)
    decreases |s|
  {
    var c' := if s[0] == '\n' then Cut(c.lines + [c.tail], []) else Cut(c.lines, c.tail + [s[0]]);
    if s[0] == '\n' && c.tail == [] {
      k := 0;
      assert s[..0] == [];
    } else {
      k := EmptyLineAt(c', s[1..]);
      k := k + 1;
      assert s[..k][1..] == s[1..][..k - 1];
    }
  }

  /** The receiver is defined on every cutting of a stream exactly when the stream has no empty line. */
  lemma DefinedOnEveryCutting(s: Text)
    ensures (forall chunks :: NonEmpty(chunks) && Concat(chunks) == s ==> Receive(START, chunks).Defined?)
            <==> NonEmpty(Scan(START, s).lines)
  {
    if NonEmpty(Scan(START, s).lines) {
      forall chunks | NonEmpty(chunks) && Concat(chunks) == s
        ensures Receive(START, chunks).Defined?
      {
        AnyCutting(START, chunks);
      }
    } else {
      var k := EmptyLineAt(START, s);
      var chunks := if k == 0 then [s] else [s[..k], s[k..]];
      CutAt(s, k);
      assert NonEmpty(chunks) && Concat(chunks) == s && !Receive(START, chunks).Defined?;
    }
  }

  lemma CutAt(s: Text, k: nat)
    requires k < |s| && s[k] == '\n' && Scan(START, s[..k]).tail == []
    ensures var chunks := if k == 0 then [s] else [s[..k], s[k..]];
      NonEmpty(chunks) && Concat(chunks) == s && Receive(START, chunks) == Undefined
  {
    if k == 0 {
      assert Concat([s]) == s + Concat([s][1..]);
      assert [] + s == s;
    } else {
      var chunks := [s[..k], s[k..]];
      assert chunks[1..] == [s[k..]] && chunks[1..][1..] == [];
      assert Concat(chunks[1..]) == s[k..] + Concat(chunks[1..][1..]);
      assert Concat(chunks) == s[..k] + (s[k..] + []);
      assert [] + s[k..] == s[k..];
      assert Receive(Scan(START, s[..k]), chunks[1..]) == Undefined;
    }
  }

  /** The stream that carries the messages ms, one line each. */
  function Encode(ms: seq<Text>): Text {
    if ms == [] then [] else ms[0] + ['\n'] + Encode(ms[1..])
  }

  /** The lines and the rest are the stream and nothing else: written one per line they give it back. */
  lemma {:induction false} LinesGiveBack(s: Text)
    ensures var c := Scan(START, s);
      Encode(c.lines) + c.tail == s && '\n' !in c.tail && forall i :: 0 <= i < |c.lines| ==> '\n' !in c.lines[i]
  {
    if s != [] {
      var n := |s| - 1;
      LinesGiveBack(s[..n]);
      var c := Scan(START, s[..n]);
      assert s == s[..n] + [s[n]];
      ScanAppend(START, s[..n], [s[n]]);
      EncodeLast(c.lines, c.tail);
      assert Scan(c, [s[n]]) == if s[n] == '\n' then Cut(c.lines + [c.tail], []) else Cut(c.lines, c.tail + [s[n]]);
      assert Encode(c.lines) + (c.tail + [s[n]]) == (Encode(c.lines) + c.tail) + [s[n]];
    }
  }

  lemma {:induction false} EncodeLast(ms: seq<Text>, m: Text)
    ensures Encode(ms + [m]) == Encode(ms) + m + ['\n']
  {
    if ms == [] {
      assert [m][1..] == [];
    } else {
      assert (ms + [m])[1..] == ms[1..] + [m];
      EncodeLast(ms[1..], m);
      assert ms[0] + ['\n'] + (Encode(ms[1..]) + m + ['\n']) == (ms[0] + ['\n'] + Encode(ms[1..])) + m + ['\n'];
    }
  }

  lemma ScanLine(l: seq<Text>, m: Text)
    requires '\n' !in m
    ensures Scan(Cut(l, []), m + ['\n']) == Cut(l + [m], [])
  {
    var c := Cut(l, []);
    ScanAppend(c, m, ['\n']);
    ScanPlain(c, m);
    assert [] + m == m;
  }

  lemma {:induction false} ScanEncoded(l: seq<Text>, ms: seq<Text>)
    requires forall i :: 0 <= i < |ms| ==> '\n' !in ms[i]
    ensures Scan(Cut(l, []), Encode(ms)) == Cut(l + ms, [])
    decreases |ms|
  {
    if ms == [] {
      assert l + ms == l;
    } else {
      ScanLine(l, ms[0]);
      ScanAppend(Cut(l, []), ms[0] + ['\n'], Encode(ms[1..]));
      ScanEncoded(l + [ms[0]], ms[1..]);
      assert l + [ms[0]] + ms[1..] == l + ms;
    }
  }

  /** Messages sent are messages processed, whatever the reads: nothing lost, split, joined or left over. */
  lemma MessagesArrive(ms: seq<Text>, chunks: seq<Text>)
    requires forall i :: 0 <= i < |ms| ==> '\n' !in ms[i]
    requires NonEmpty(ms) && NonEmpty(chunks) && Concat(chunks) == Encode(ms)
    ensures Receive(START, chunks) == Defined(Cut(ms, []))
  {
    ScanEncoded([], ms);
    assert [] + ms == ms;
    AnyCutting(START, chunks);
  }
}
