/** Order bodies whose values contain placeholders themselves: when the twenty passes still are one
    simultaneous substitution, and what they are when not. */
module NestedTemplate {
  import opened Template

  /* ---- Values that contain placeholders ---- */

  predicate HolesWithin(doc: seq<Piece>, names: set<string>) {
    forall i | 0 <= i < |doc| && doc[i].Hole? :: doc[i].name in names
  }

  // `names` holds every placeholder that can get into the document; the values of those read as clean
  // documents themselves. All other values are arbitrary.
  ghost predicate Reads(doc: seq<Piece>, bindings: seq<Binding>, docs: seq<seq<Piece>>, names: set<string>) {
    && |docs| == |bindings| && Clean(doc) && HolesWithin(doc, names)
    && (forall j | 0 <= j < |bindings| :: BraceFree(bindings[j].0))
    && (forall j | 0 <= j < |bindings| && bindings[j].0 in names ::
          bindings[j].1 == Render(docs[j]) && Clean(docs[j]) && HolesWithin(docs[j], names))
  }

  function ExpandPiece(p: Piece, key: string, value: seq<Piece>): seq<Piece> {
    if p == Hole(key) then value else [p]
  }

  function Expand(doc: seq<Piece>, key: string, value: seq<Piece>): seq<Piece> {
    if doc == [] then [] else ExpandPiece(doc[0], key, value) + Expand(doc[1..], key, value)
  }

  // The document after all passes.
  function Trace(doc: seq<Piece>, bindings: seq<Binding>, docs: seq<seq<Piece>>): seq<Piece>
    requires |docs| == |bindings|
    decreases |bindings|
  {
    if bindings == [] then doc else Trace(Expand(doc, bindings[0].0, docs[0]), bindings[1..], docs[1..])
  }

  lemma {:induction false} RenderAppend(a: seq<Piece>, b: seq<Piece>)
    ensures Render(a + b) == Render(a) + Render(b)
  {
    hide RenderPiece;
    if a == [] {
      assert a + b == b;
      assert Render(a) + Render(b) == Render(b);
    } else {
      RenderAppend(a[1..], b);
      assert (a + b)[1..] == a[1..] + b;
      assert Render(a + b) == RenderPiece(a[0]) + (Render(a[1..]) + Render(b));
    }
  }

  lemma RenderOne(p: Piece)
    ensures Render([p]) == RenderPiece(p)
  {
    assert [p][1..] == [];
  }

  lemma {:induction false} FillIsExpand(doc: seq<Piece>, key: string, value: seq<Piece>)
    ensures Render(Fill(doc, key, Render(value))) == Render(Expand(doc, key, value))
  {
    hide Tag;
    if doc != [] {
      FillIsExpand(doc[1..], key, value);
      assert Fill(doc, key, Render(value))[1..] == Fill(doc[1..], key, Render(value));
      var head := if doc[0] == Hole(key) then value else [doc[0]];
      RenderAppend(head, Expand(doc[1..], key, value));
      RenderOne(doc[0]);
    }
  }

  lemma {:induction false} ExpandAbsent(doc: seq<Piece>, key: string, value: seq<Piece>)
    requires Hole(key) !in doc
    ensures Expand(doc, key, value) == doc
  {
    if doc != [] {
      assert Hole(key) !in doc[1..] && doc[0] != Hole(key);
      ExpandAbsent(doc[1..], key, value);
      assert doc == [doc[0]] + doc[1..];
    }
  }

  lemma {:induction false} ExpandClean(doc: seq<Piece>, key: string, value: seq<Piece>, names: set<string>)
    requires Clean(doc) && Clean(value) && HolesWithin(doc, names) && HolesWithin(value, names)
    ensures Clean(Expand(doc, key, value)) && HolesWithin(Expand(doc, key, value), names)
  {
    hide CleanPiece;
    if doc != [] {
      assert forall i | 0 <= i < |doc| - 1 :: doc[1..][i] == doc[i + 1];
      ExpandClean(doc[1..], key, value, names);
    }
  }

  // One pass expands the placeholders of its name.
  lemma ExpandIsPass(doc: seq<Piece>, bindings: seq<Binding>, docs: seq<seq<Piece>>, names: set<string>)
    requires bindings != [] && Reads(doc, bindings, docs, names)
    ensures ReplaceAll(Render(doc), Tag(bindings[0].0), bindings[0].1) == Render(Expand(doc, bindings[0].0, docs[0]))
    ensures Reads(Expand(doc, bindings[0].0, docs[0]), bindings[1..], docs[1..], names)
  {
    hide Tag, ReplaceAll, BraceFree, Render, Fill, Expand, Clean;
    var (key, value) := bindings[0];
    PassFills(doc, key, value);
    if key in names {
      FillIsExpand(doc, key, docs[0]);
      ExpandClean(doc, key, docs[0], names);
    } else {
      assert Hole(key) !in doc;
      ExpandAbsent(doc, key, docs[0]);
      FillAbsent(doc, key, value);
    }
    assert forall j | 0 <= j < |bindings| - 1 :: bindings[1..][j] == bindings[j + 1] && docs[1..][j] == docs[j + 1];
  }

  lemma FillAbsent(doc: seq<Piece>, key: string, value: string)
    requires Hole(key) !in doc
    ensures Fill(doc, key, value) == doc
  {
  }

  lemma {:induction false} PassesTrace(doc: seq<Piece>, bindings: seq<Binding>, docs: seq<seq<Piece>>,
                                       names: set<string>)
    requires Reads(doc, bindings, docs, names)
    ensures Passes(Render(doc), bindings) == Render(Trace(doc, bindings, docs))
    ensures Clean(Trace(doc, bindings, docs))
    decreases |bindings|
  {
    hide Tag, ReplaceAll, Render, Expand, Clean;
    if bindings != [] {
      ExpandIsPass(doc, bindings, docs, names);
      PassesTrace(Expand(doc, bindings[0].0, docs[0]), bindings[1..], docs[1..], names);
    } else {
      assert Clean(doc);
    }
  }

  /* ---- Where a placeholder ends up ---- */

  lemma {:induction false} ExpandAppend(a: seq<Piece>, b: seq<Piece>, key: string, value: seq<Piece>)
    ensures Expand(a + b, key, value) == Expand(a, key, value) + Expand(b, key, value)
  {
    hide ExpandPiece;
    if a == [] {
      assert a + b == b;
      assert [] + Expand(b, key, value) == Expand(b, key, value);
    } else {
      var head := ExpandPiece(a[0], key, value);
      ExpandAppend(a[1..], b, key, value);
      assert (a + b)[1..] == a[1..] + b;
      assert head + (Expand(a[1..], key, value) + Expand(b, key, value)) ==
             head + Expand(a[1..], key, value) + Expand(b, key, value);
    }
  }

  lemma {:induction false} TraceAppend(a: seq<Piece>, b: seq<Piece>, bindings: seq<Binding>, docs: seq<seq<Piece>>)
    requires |docs| == |bindings|
    ensures Trace(a + b, bindings, docs) == Trace(a, bindings, docs) + Trace(b, bindings, docs)
    decreases |bindings|
  {
    hide Expand;
    if bindings != [] {
      var (key, _) := bindings[0];
      ExpandAppend(a, b, key, docs[0]);
      TraceAppend(Expand(a, key, docs[0]), Expand(b, key, docs[0]), bindings[1..], docs[1..]);
    }
  }

  // The pass of a name, or the number of passes.
  function PassOf(bindings: seq<Binding>, name: string): (j: nat)
    ensures j <= |bindings|
    ensures j < |bindings| ==> bindings[j].0 == name
    ensures forall i | 0 <= i < j :: bindings[i].0 != name
  {
    if bindings == [] || bindings[0].0 == name then 0
    else
      var j := PassOf(bindings[1..], name) + 1;
      assert forall i | 1 <= i < j :: bindings[i] == bindings[1..][i - 1];
      j
  }

  lemma {:induction false} TraceOfUnbound(doc: seq<Piece>, bindings: seq<Binding>, docs: seq<seq<Piece>>)
    requires |docs| == |bindings|
    requires forall j | 0 <= j < |bindings| :: Hole(bindings[j].0) !in doc
    ensures Trace(doc, bindings, docs) == doc
    decreases |bindings|
  {
    if bindings != [] {
      ExpandAbsent(doc, bindings[0].0, docs[0]);
      TraceOfUnbound(doc, bindings[1..], docs[1..]);
    }
  }

  // A placeholder becomes its value, on which only the later passes still work.
  lemma {:induction false} TraceOfHole(h: string, bindings: seq<Binding>, docs: seq<seq<Piece>>)
    requires |docs| == |bindings|
    ensures var j := PassOf(bindings, h);
            Trace([Hole(h)], bindings, docs) ==
            if j < |bindings| then Trace(docs[j], bindings[j + 1..], docs[j + 1..]) else [Hole(h)]
    decreases |bindings|
  {
    hide Tag;
    if bindings != [] {
      var rest := [Hole(h)][1..];
      assert rest == [] && Expand(rest, bindings[0].0, docs[0]) == [];
      if bindings[0].0 == h {
        assert Expand([Hole(h)], h, docs[0]) == docs[0];
      } else {
        assert Expand([Hole(h)], bindings[0].0, docs[0]) == [Hole(h)];
        TraceOfHole(h, bindings[1..], docs[1..]);
        var j := PassOf(bindings[1..], h);
        assert j + 1 <= |bindings| && bindings[1..][j..] == bindings[j + 1..] && docs[1..][j..] == docs[j + 1..];
        if j < |bindings| - 1 {
          assert bindings[1..][j + 1..] == bindings[j + 2..] && docs[1..][j + 1..] == docs[j + 2..];
        }
      }
    }
  }

  /* ---- The simultaneous substitution as a document ---- */

  function OncePiece(p: Piece, bindings: seq<Binding>, docs: seq<seq<Piece>>): seq<Piece>
    requires |docs| == |bindings|
  {
    if p.Hole? && PassOf(bindings, p.name) < |bindings| then docs[PassOf(bindings, p.name)] else [p]
  }

  function Once(doc: seq<Piece>, bindings: seq<Binding>, docs: seq<seq<Piece>>): seq<Piece>
    requires |docs| == |bindings|
  {
    if doc == [] then [] else OncePiece(doc[0], bindings, docs) + Once(doc[1..], bindings, docs)
  }

  lemma {:induction false} OnceIsSubst(doc: seq<Piece>, bindings: seq<Binding>, docs: seq<seq<Piece>>,
                                       names: set<string>)
    requires Reads(doc, bindings, docs, names) && DistinctKeys(bindings)
    ensures Render(Once(doc, bindings, docs)) == Render(Subst(doc, Env(bindings)))
    ensures Clean(Once(doc, bindings, docs))
  {
    hide Env, BraceFree, OpenFree, Tag, PassOf;
    if doc != [] {
      assert forall i | 0 <= i < |doc| - 1 :: doc[1..][i] == doc[i + 1];
      OnceIsSubst(doc[1..], bindings, docs, names);
      assert Subst(doc, Env(bindings))[1..] == Subst(doc[1..], Env(bindings));
      RenderAppend(OncePiece(doc[0], bindings, docs), Once(doc[1..], bindings, docs));
      OncePieceIsSubst(doc[0], bindings, docs, names);
    }
  }

  lemma OncePieceIsSubst(p: Piece, bindings: seq<Binding>, docs: seq<seq<Piece>>, names: set<string>)
    requires CleanPiece(p) && (p.Hole? ==> p.name in names)
    requires Reads([], bindings, docs, names) && DistinctKeys(bindings)
    ensures var env := Env(bindings);
            Render(OncePiece(p, bindings, docs)) ==
            RenderPiece(if p.Hole? && p.name in env then Text(env[p.name]) else p)
    ensures Clean(OncePiece(p, bindings, docs))
  {
    hide Env, BraceFree, OpenFree, Tag;
    RenderOne(p);
    EnvIsBindings(bindings);
    if p.Hole? && PassOf(bindings, p.name) < |bindings| {
      assert bindings[PassOf(bindings, p.name)] in bindings;
    }
  }

  /* ---- Comparing the two results ---- */

  // Some placeholder of this document still has its pass to come, and that puts something else.
  ghost predicate Unsettled(doc: seq<Piece>, bindings: seq<Binding>, docs: seq<seq<Piece>>)
    requires |docs| == |bindings|
  {
    exists i :: 0 <= i < |doc| && OncePiece(doc[i], bindings, docs) != [doc[i]]
  }

  // In this document only one level of placeholders is still to be resolved: the value of such a
  // placeholder has none itself, or is that very placeholder.
  ghost predicate Shallow(doc: seq<Piece>, bindings: seq<Binding>, docs: seq<seq<Piece>>)
    requires |docs| == |bindings|
  {
    forall i | 0 <= i < |doc| ::
      OncePiece(doc[i], bindings, docs) == [doc[i]] || Holes(OncePiece(doc[i], bindings, docs)) == 0
  }

  function Holes(doc: seq<Piece>): nat {
    if doc == [] then 0 else (if doc[0].Hole? then 1 else 0) + Holes(doc[1..])
  }

  lemma {:induction false} HolesAppend(a: seq<Piece>, b: seq<Piece>)
    ensures Holes(a + b) == Holes(a) + Holes(b)
  {
    if a == [] {
      assert a + b == b;
    } else {
      HolesAppend(a[1..], b);
      assert (a + b)[1..] == a[1..] + b;
    }
  }

  lemma {:induction false} NoHoles(doc: seq<Piece>, name: string)
    requires Holes(doc) == 0
    ensures Hole(name) !in doc
  {
    if doc != [] {
      NoHoles(doc[1..], name);
      assert doc == [doc[0]] + doc[1..];
    }
  }

  lemma TraceOfPlain(doc: seq<Piece>, bindings: seq<Binding>, docs: seq<seq<Piece>>)
    requires |docs| == |bindings| && Holes(doc) == 0
    ensures Trace(doc, bindings, docs) == doc
  {
    forall j | 0 <= j < |bindings|
      ensures Hole(bindings[j].0) !in doc
    {
      NoHoles(doc, bindings[j].0);
    }
    TraceOfUnbound(doc, bindings, docs);
  }

  // One piece whose value, if its pass is still to come, is plain or the piece itself.
  lemma TraceOfPiece(p: Piece, bindings: seq<Binding>, docs: seq<seq<Piece>>)
    requires |docs| == |bindings| && DistinctKeys(bindings)
    requires OncePiece(p, bindings, docs) == [p] || Holes(OncePiece(p, bindings, docs)) == 0
    ensures Trace([p], bindings, docs) == OncePiece(p, bindings, docs)
  {
    match p
    case Text(_) => TraceOfUnbound([p], bindings, docs);
    case Hole(h) =>
      TraceOfHole(h, bindings, docs);
      var j := PassOf(bindings, h);
      if j < |bindings| {
        if docs[j] == [p] {
          TraceOfUnbound([p], bindings[j + 1..], docs[j + 1..]);
        } else {
          TraceOfPlain(docs[j], bindings[j + 1..], docs[j + 1..]);
        }
      }
  }

  // A shallow document stays as it is, or loses placeholders.
  lemma {:induction false} TraceOfShallow(doc: seq<Piece>, bindings: seq<Binding>, docs: seq<seq<Piece>>)
    requires |docs| == |bindings| && DistinctKeys(bindings) && Shallow(doc, bindings, docs)
    ensures Holes(Trace(doc, bindings, docs)) <= Holes(doc)
    ensures Unsettled(doc, bindings, docs) ==> Holes(Trace(doc, bindings, docs)) < Holes(doc)
    ensures !Unsettled(doc, bindings, docs) ==> Trace(doc, bindings, docs) == doc
  {
    hide DistinctKeys, Trace, OncePiece, Holes;
    if doc == [] {
      TraceOfUnbound(doc, bindings, docs);
    } else {
      var tail := doc[1..];
      assert forall i | 0 <= i < |tail| :: tail[i] == doc[i + 1];
      TraceOfShallow(tail, bindings, docs);
      assert doc == [doc[0]] + tail;
      TraceAppend([doc[0]], tail, bindings, docs);
      TraceOfPiece(doc[0], bindings, docs);
      HolesAppend([doc[0]], tail);
      HolesAppend(OncePiece(doc[0], bindings, docs), Trace(tail, bindings, docs));
      PieceLoses(doc[0], bindings, docs);
      if Unsettled(tail, bindings, docs) {
        var i :| 0 <= i < |tail| && OncePiece(tail[i], bindings, docs) != [tail[i]];
        assert OncePiece(doc[i + 1], bindings, docs) != [doc[i + 1]];
      }
    }
  }

  lemma PieceLoses(p: Piece, bindings: seq<Binding>, docs: seq<seq<Piece>>)
    requires |docs| == |bindings|
    requires OncePiece(p, bindings, docs) == [p] || Holes(OncePiece(p, bindings, docs)) == 0
    ensures Holes([p]) <= 1
    ensures OncePiece(p, bindings, docs) != [p] ==> Holes([p]) == 1 && Holes(OncePiece(p, bindings, docs)) == 0
  {
    assert [p][1..] == [] && Holes([]) == 0;
  }

  // The value of a placeholder of the document, with the passes that come after its own.
  ghost predicate Overtaken(bindings: seq<Binding>, docs: seq<seq<Piece>>, h: string)
    requires |docs| == |bindings|
  {
    var j := PassOf(bindings, h);
    j < |bindings| && Unsettled(docs[j], bindings[j + 1..], docs[j + 1..])
  }

  ghost predicate OneLevel(doc: seq<Piece>, bindings: seq<Binding>, docs: seq<seq<Piece>>)
    requires |docs| == |bindings|
  {
    forall i | 0 <= i < |doc| && doc[i].Hole? ::
      var j := PassOf(bindings, doc[i].name);
      j < |bindings| ==> Shallow(docs[j], bindings[j + 1..], docs[j + 1..])
  }

  ghost predicate NoneOvertaken(doc: seq<Piece>, bindings: seq<Binding>, docs: seq<seq<Piece>>)
    requires |docs| == |bindings|
  {
    forall i | 0 <= i < |doc| && doc[i].Hole? :: !Overtaken(bindings, docs, doc[i].name)
  }

  lemma PieceTraced(p: Piece, bindings: seq<Binding>, docs: seq<seq<Piece>>)
    requires |docs| == |bindings| && DistinctKeys(bindings) && OneLevel([p], bindings, docs)
    ensures var got := Trace([p], bindings, docs); var want := OncePiece(p, bindings, docs);
            && Holes(got) <= Holes(want)
            && (if p.Hole? && Overtaken(bindings, docs, p.name) then Holes(got) < Holes(want) else got == want)
  {
    hide DistinctKeys, Trace, Holes, Shallow, Unsettled;
    match p
    case Text(_) => TraceOfUnbound([p], bindings, docs);
    case Hole(h) =>
      TraceOfHole(h, bindings, docs);
      var j := PassOf(bindings, h);
      assert [p][0] == p;
      if j < |bindings| {
        SuffixDistinct(bindings, j + 1);
        TraceOfShallow(docs[j], bindings[j + 1..], docs[j + 1..]);
      }
  }

  lemma SuffixDistinct(bindings: seq<Binding>, j: nat)
    requires DistinctKeys(bindings) && j <= |bindings|
    ensures DistinctKeys(bindings[j..])
  {
  }

  lemma {:induction false} TracedVersusOnce(doc: seq<Piece>, bindings: seq<Binding>, docs: seq<seq<Piece>>)
    requires |docs| == |bindings| && DistinctKeys(bindings) && OneLevel(doc, bindings, docs)
    ensures Holes(Trace(doc, bindings, docs)) <= Holes(Once(doc, bindings, docs))
    ensures if NoneOvertaken(doc, bindings, docs) then Trace(doc, bindings, docs) == Once(doc, bindings, docs)
            else Holes(Trace(doc, bindings, docs)) < Holes(Once(doc, bindings, docs))
  {
    hide DistinctKeys, Trace, Holes, Shallow, Overtaken, OncePiece, PassOf;
    if doc == [] {
      TraceOfUnbound(doc, bindings, docs);
    } else {
      var tail := doc[1..];
      assert forall i | 0 <= i < |tail| :: tail[i] == doc[i + 1];
      assert doc == [doc[0]] + tail && [doc[0]][0] == doc[0];
      TracedVersusOnce(tail, bindings, docs);
      TraceAppend([doc[0]], tail, bindings, docs);
      PieceTraced(doc[0], bindings, docs);
      HolesAppend(Trace([doc[0]], bindings, docs), Trace(tail, bindings, docs));
      HolesAppend(OncePiece(doc[0], bindings, docs), Once(tail, bindings, docs));
      NoneOvertakenCons(doc, bindings, docs);
    }
  }

  lemma NoneOvertakenCons(doc: seq<Piece>, bindings: seq<Binding>, docs: seq<seq<Piece>>)
    requires |docs| == |bindings| && doc != []
    ensures NoneOvertaken(doc, bindings, docs) <==>
            NoneOvertaken(doc[1..], bindings, docs) && (doc[0].Hole? ==> !Overtaken(bindings, docs, doc[0].name))
  {
    hide Overtaken;
    var tail := doc[1..];
    assert forall i | 0 <= i < |tail| :: tail[i] == doc[i + 1];
    assert forall i | 0 < i < |doc| :: doc[i] == tail[i - 1];
  }

  function Braces(s: string): nat {
    if s == "" then 0 else (if s[0] == '{' then 1 else 0) + Braces(s[1..])
  }

  lemma {:induction false} BracesOf(a: string, b: string)
    ensures Braces(a + b) == Braces(a) + Braces(b)
  {
    if a == "" {
      assert a + b == b;
    } else {
      BracesOf(a[1..], b);
      assert (a + b)[1..] == a[1..] + b;
    }
  }

  lemma {:induction false} NoBraces(s: string)
    requires OpenFree(s)
    ensures Braces(s) == 0
  {
    if s != "" {
      NoBraces(s[1..]);
    }
  }

  lemma BracesOfPiece(p: Piece)
    requires CleanPiece(p)
    ensures Braces(RenderPiece(p)) == if p.Hole? then 2 else 0
  {
    match p
    case Text(t) => NoBraces(t);
    case Hole(n) =>
      BracesOf("{" + "{", n + "}}");
      BracesOf(n, "}}");
      NoBraces(n);
      assert Tag(n) == ("{" + "{") + (n + "}}");
      assert ("{" + "{")[1..] == "{" && "}}"[1..] == "}" && "{"[1..] == "" && "}"[1..] == "";
  }

  // A clean document has two opening braces per placeholder, however its text is cut.
  lemma {:induction false} BracesOfDoc(doc: seq<Piece>)
    requires Clean(doc)
    ensures Braces(Render(doc)) == 2 * Holes(doc)
  {
    hide RenderPiece, CleanPiece;
    if doc != [] {
      assert forall i | 0 <= i < |doc| - 1 :: doc[1..][i] == doc[i + 1];
      BracesOfDoc(doc[1..]);
      assert CleanPiece(doc[0]);
      BracesOfPiece(doc[0]);
      BracesOf(RenderPiece(doc[0]), Render(doc[1..]));
    }
  }

  // Whatever placeholders the values contain, as long as they are resolved one level deep: the passes
  // are the simultaneous substitution if and only if no placeholder that a value brings into the
  // document has its own pass still to come, unless that puts the very same placeholder.
  lemma PassesSubstituteIff(doc: seq<Piece>, bindings: seq<Binding>, docs: seq<seq<Piece>>, names: set<string>)
    requires Reads(doc, bindings, docs, names) && DistinctKeys(bindings) && OneLevel(doc, bindings, docs)
    ensures Passes(Render(doc), bindings) == Render(Subst(doc, Env(bindings))) <==> NoneOvertaken(doc, bindings, docs)
  {
    hide Passes, Env, Trace, Once, Subst, NoneOvertaken, OneLevel, DistinctKeys, Braces, Holes, Render, Clean;
    PassesTrace(doc, bindings, docs, names);
    OnceIsSubst(doc, bindings, docs, names);
    TracedVersusOnce(doc, bindings, docs);
    BracesOfDoc(Trace(doc, bindings, docs));
    BracesOfDoc(Once(doc, bindings, docs));
  }

  // No placeholder of the value has its pass still to come, to any depth.
  ghost predicate AllSettled(doc: seq<Piece>, bindings: seq<Binding>, docs: seq<seq<Piece>>)
    requires |docs| == |bindings|
  {
    forall i | 0 <= i < |doc| && doc[i].Hole? ::
      var j := PassOf(bindings, doc[i].name);
      j < |bindings| ==> forall m | j < m < |bindings| :: Hole(bindings[m].0) !in docs[j]
  }

  // That alone is enough for any clean values.
  lemma SettledIsOneLevel(doc: seq<Piece>, bindings: seq<Binding>, docs: seq<seq<Piece>>)
    requires |docs| == |bindings| && AllSettled(doc, bindings, docs)
    ensures OneLevel(doc, bindings, docs) && NoneOvertaken(doc, bindings, docs)
  {
    forall i, k | 0 <= i < |doc| && doc[i].Hole? && PassOf(bindings, doc[i].name) < |bindings|
                  && 0 <= k < |docs[PassOf(bindings, doc[i].name)]|
      ensures var j := PassOf(bindings, doc[i].name);
              OncePiece(docs[j][k], bindings[j + 1..], docs[j + 1..]) == [docs[j][k]]
    {
      var j := PassOf(bindings, doc[i].name);
      UnboundPiece(docs[j], k, bindings[j + 1..], docs[j + 1..]);
    }
  }

  lemma UnboundPiece(value: seq<Piece>, k: nat, bindings: seq<Binding>, docs: seq<seq<Piece>>)
    requires |docs| == |bindings| && k < |value|
    requires forall m | 0 <= m < |bindings| :: Hole(bindings[m].0) !in value
    ensures OncePiece(value[k], bindings, docs) == [value[k]]
  {
    if value[k].Hole? {
      assert Hole(value[k].name) in value;
    }
  }

  lemma SettledPassesSubstitute(doc: seq<Piece>, bindings: seq<Binding>, docs: seq<seq<Piece>>, names: set<string>)
    requires Reads(doc, bindings, docs, names) && DistinctKeys(bindings) && AllSettled(doc, bindings, docs)
    ensures Passes(Render(doc), bindings) == Render(Subst(doc, Env(bindings)))
  {
    hide Passes, Env, Subst, NoneOvertaken, OneLevel, DistinctKeys, Render, AllSettled;
    SettledIsOneLevel(doc, bindings, docs);
    PassesSubstituteIff(doc, bindings, docs, names);
  }

  lemma JsonStays(doc: seq<Piece>, key: string, value: seq<Piece>)
    requires JsonDoc(doc)
    ensures JsonDoc(Expand(doc, key, value)) && Expand(doc, key, value)[0] == doc[0]
  {
  }

  lemma {:induction false} LeadingBraceStays(doc: seq<Piece>, bindings: seq<Binding>, docs: seq<seq<Piece>>,
                                             names: set<string>)
    requires JsonDoc(doc) && Reads(doc, bindings, docs, names)
    ensures Passes("{" + Render(doc), bindings) == "{" + Passes(Render(doc), bindings)
    decreases |bindings|
  {
    hide Tag, ReplaceAll, BraceFree, Expand;
    if bindings != [] {
      assert CleanPiece(doc[0]) && Render(doc)[0] == doc[0].text[0];
      PassKeepsBrace(Render(doc), bindings[0].0, bindings[0].1);
      ExpandIsPass(doc, bindings, docs, names);
      JsonStays(doc, bindings[0].0, docs[0]);
      LeadingBraceStays(Expand(doc, bindings[0].0, docs[0]), bindings[1..], docs[1..], names);
    }
  }

  lemma BodyPasses(accountType: string, v: Values, docs: seq<seq<Piece>>, names: set<string>)
    requires Reads(BodyDoc(accountType), BodyBindings(v), docs, names)
    ensures Passes(DefaultBodyForType(accountType), BodyBindings(v)) ==
            Lead(accountType) + Passes(Render(BodyDoc(accountType)), BodyBindings(v))
  {
    hide BodyBindings, BodyDoc, Lead, Passes, Reads;
    var doc := BodyDoc(accountType);
    BodyDocsClean(accountType);
    if Lead(accountType) == "{" {
      LeadingBraceStays(doc, BodyBindings(v), docs, names);
    } else {
      assert "" + Render(doc) == Render(doc);
      assert "" + Passes(Render(doc), BodyBindings(v)) == Passes(Render(doc), BodyBindings(v));
    }
  }

  // The same for the twenty passes of PlaceOrder over each built-in body.
  lemma BodySubstitutesIff(accountType: string, v: Values, docs: seq<seq<Piece>>, names: set<string>)
    requires Reads(BodyDoc(accountType), BodyBindings(v), docs, names)
    requires OneLevel(BodyDoc(accountType), BodyBindings(v), docs)
    ensures Passes(DefaultBodyForType(accountType), BodyBindings(v)) ==
            Lead(accountType) + Render(Subst(BodyDoc(accountType), Env(BodyBindings(v)))) <==>
            NoneOvertaken(BodyDoc(accountType), BodyBindings(v), docs)
  {
    hide BodyBindings, BodyDoc, Lead, Env, Subst, Passes, Reads, OneLevel, NoneOvertaken;
    var doc := BodyDoc(accountType);
    BodyKeysDistinct(v);
    BodyPasses(accountType, v, docs, names);
    LengthOfReads(doc, BodyBindings(v), docs, names);
    PassesSubstituteIff(doc, BodyBindings(v), docs, names);
    SameTail(Lead(accountType), Passes(Render(doc), BodyBindings(v)), Render(Subst(doc, Env(BodyBindings(v)))));
  }

  lemma LengthOfReads(doc: seq<Piece>, bindings: seq<Binding>, docs: seq<seq<Piece>>, names: set<string>)
    requires Reads(doc, bindings, docs, names)
    ensures |docs| == |bindings|
  {
  }

  // And whatever placeholders are in the values, to any depth: if the passes of all those that can get
  // into the body come before the pass that brings them in, the result is the simultaneous substitution.
  lemma SettledBodySubstitutes(accountType: string, v: Values, docs: seq<seq<Piece>>, names: set<string>)
    requires Reads(BodyDoc(accountType), BodyBindings(v), docs, names)
    requires AllSettled(BodyDoc(accountType), BodyBindings(v), docs)
    ensures Passes(DefaultBodyForType(accountType), BodyBindings(v)) ==
            Lead(accountType) + Render(Subst(BodyDoc(accountType), Env(BodyBindings(v))))
  {
    hide BodyBindings, BodyDoc, Lead, Env, Subst, Passes, Reads, AllSettled;
    BodyKeysDistinct(v);
    BodyPasses(accountType, v, docs, names);
    LengthOfReads(BodyDoc(accountType), BodyBindings(v), docs, names);
    SettledPassesSubstitute(BodyDoc(accountType), BodyBindings(v), docs, names);
  }

  lemma SameTail(a: string, b: string, c: string)
    ensures a + b == a + c <==> b == c
  {
    assert (a + b)[|a|..] == b && (a + c)[|a|..] == c;
  }

  /* ---- A Binance order whose symbol contains a placeholder ---- */

  // The symbol reads as text around the placeholder of the last pass; the order's other values are plain.
  predicate MixedSymbol(v: Values, before: string, after: string) {
    && OpenFree(v.amount) && OpenFree(v.action) && OpenFree(v.binanceTime) && OpenFree(v.token)
    && OpenFree(before) && OpenFree(after) && v.symbol == before + Tag("token") + after
  }

  // How the values read; those that cannot get into the body do not matter.
  function DocsOf(v: Values, before: string, after: string): seq<seq<Piece>> {
    seq(20, j requires 0 <= j < 20 =>
      if j == 3 then [Text(before), Hole("token"), Text(after)] else [Text(BodyBindings(v)[j].1)])
  }

  const BINANCE_NAMES := {"action", "binance_time", "amount", "symbol", "token"}

  lemma BinanceHoles(name: string)
    requires Hole(name) in BINANCE_BODY
    ensures name in BINANCE_NAMES && name != "token"
  {
  }

  lemma BinancePasses(v: Values)
    ensures var b := BodyBindings(v);
            |b| == 20 && b[3] == ("symbol", v.symbol) && b[19] == ("token", v.token)
    ensures var b := BodyBindings(v);
            forall j | 0 <= j < 20 && j != 3 && b[j].0 in BINANCE_NAMES ::
              b[j] in {("action", v.action), ("binance_time", v.binanceTime), ("amount", v.amount), ("token", v.token)}
  {
  }

  lemma RenderMixed(before: string, after: string)
    ensures Render([Text(before), Hole("token"), Text(after)]) == before + Tag("token") + after
  {
    hide Tag;
    var doc := [Text(before), Hole("token"), Text(after)];
    assert doc == [Text(before)] + ([Hole("token")] + [Text(after)]);
    RenderAppend([Text(before)], [Hole("token")] + [Text(after)]);
    RenderAppend([Hole("token")], [Text(after)]);
    RenderOne(Text(before));
    RenderOne(Hole("token"));
    RenderOne(Text(after));
  }

  lemma BinanceReads(v: Values, before: string, after: string)
    requires MixedSymbol(v, before, after)
    ensures Reads(BINANCE_BODY, BodyBindings(v), DocsOf(v, before, after), BINANCE_NAMES)
  {
    hide BodyBindings, OpenFree, Tag, Render, BINANCE_BODY, BINANCE_NAMES;
    var b := BodyBindings(v);
    var docs := DocsOf(v, before, after);
    BinancePasses(v);
    BodyKeysBraceFree(v);
    BinanceClean();
    ShortNames();
    RenderMixed(before, after);
    TokenIsAName();
    forall i | 0 <= i < |BINANCE_BODY| && BINANCE_BODY[i].Hole?
      ensures BINANCE_BODY[i].name in BINANCE_NAMES
    {
      assert BINANCE_BODY[i] == Hole(BINANCE_BODY[i].name);
      BinanceHoles(BINANCE_BODY[i].name);
    }
    forall j | 0 <= j < |b| && b[j].0 in BINANCE_NAMES
      ensures b[j].1 == Render(docs[j]) && Clean(docs[j]) && HolesWithin(docs[j], BINANCE_NAMES)
    {
      RenderOne(Text(b[j].1));
    }
  }

  lemma TokenIsAName()
    ensures "token" in BINANCE_NAMES
  {
  }

  lemma SymbolPass(v: Values)
    ensures PassOf(BodyBindings(v), "symbol") == 3
    ensures PassOf(BodyBindings(v)[4..], "token") == 15
  {
    hide PassOf;
    BodyKeysDistinct(v);
    BinancePasses(v);
    var b := BodyBindings(v);
    var tail := b[4..];
    assert tail[15] == b[19];
    assert forall j | 0 <= j < 15 :: tail[j] == b[j + 4];
  }

  // The order the body is filled in for in the end.
  function Resolved(v: Values, before: string, after: string): Values { v.(symbol := before + v.token + after) }

  lemma {:induction false} OnceByKeys(doc: seq<Piece>, b: seq<Binding>, c: seq<Binding>, docs: seq<seq<Piece>>)
    requires |docs| == |b| == |c| && forall j | 0 <= j < |b| :: b[j].0 == c[j].0
    ensures Once(doc, b, docs) == Once(doc, c, docs)
  {
    hide PassOf;
    if doc != [] {
      OnceByKeys(doc[1..], b, c, docs);
      if doc[0].Hole? {
        PassByKeys(b, c, doc[0].name);
      }
    }
  }

  lemma {:induction false} PassByKeys(b: seq<Binding>, c: seq<Binding>, h: string)
    requires |b| == |c| && forall j | 0 <= j < |b| :: b[j].0 == c[j].0
    ensures PassOf(b, h) == PassOf(c, h)
  {
    if b != [] {
      PassByKeys(b[1..], c[1..], h);
    }
  }

  // Piece by piece, the passes are the simultaneous substitution of other values.
  lemma {:induction false} TracePieces(doc: seq<Piece>, b: seq<Binding>, docs: seq<seq<Piece>>, others: seq<seq<Piece>>)
    requires |docs| == |b| == |others|
    requires forall i | 0 <= i < |doc| :: Trace([doc[i]], b, docs) == OncePiece(doc[i], b, others)
    ensures Trace(doc, b, docs) == Once(doc, b, others)
  {
    hide Trace, OncePiece;
    if doc == [] {
      TraceOfUnbound(doc, b, docs);
    } else {
      var tail := doc[1..];
      assert forall i | 0 <= i < |tail| :: tail[i] == doc[i + 1];
      TracePieces(tail, b, docs, others);
      TraceAppend([doc[0]], tail, b, docs);
      assert doc == [doc[0]] + tail;
    }
  }

  lemma PlainDocs(v: Values, before: string, after: string, j: nat)
    requires j < 20 && j != 3
    ensures Holes(DocsOf(v, before, after)[j]) == 0
  {
    hide BodyBindings;
    var d := DocsOf(v, before, after)[j];
    assert d[0].Text? && d[1..] == [];
  }

  lemma MixedTrace(v: Values, before: string, after: string)
    ensures |BodyBindings(v)| == 20
    ensures Trace([Text(before), Hole("token"), Text(after)], BodyBindings(v)[4..], DocsOf(v, before, after)[4..]) ==
            [Text(before), Text(v.token), Text(after)]
  {
    BinancePasses(v);
    SymbolPass(v);
    BodyKeysDistinct(v);
    hide BodyBindings, PassOf;
    var b := BodyBindings(v)[4..];
    var docs := DocsOf(v, before, after)[4..];
    assert docs[15] == [Text(v.token)];
    TraceOfUnbound([Text(before)], b, docs);
    TraceOfUnbound([Text(after)], b, docs);
    TraceOfHole("token", b, docs);
    assert docs[15][1..] == [];
    TraceOfPlain(docs[15], b[16..], docs[16..]);
    TraceAppend([Hole("token")], [Text(after)], b, docs);
    TraceAppend([Text(before)], [Hole("token"), Text(after)], b, docs);
    assert [Text(before), Hole("token"), Text(after)] == [Text(before)] + [Hole("token"), Text(after)];
    assert [Hole("token"), Text(after)] == [Hole("token")] + [Text(after)];
  }

  lemma ResolvedTrace(v: Values, before: string, after: string)
    requires MixedSymbol(v, before, after)
    ensures |BodyBindings(v)| == 20
    ensures var others := DocsOf(v, before, after)[3 := [Text(before), Text(v.token), Text(after)]];
            Trace(BINANCE_BODY, BodyBindings(v), DocsOf(v, before, after)) ==
            Once(BINANCE_BODY, BodyBindings(v), others)
  {
    BinancePasses(v);
    SymbolPass(v);
    hide BodyBindings, PassOf, OpenFree, Trace, BINANCE_BODY, Holes;
    var b := BodyBindings(v);
    var docs := DocsOf(v, before, after);
    var others := docs[3 := [Text(before), Text(v.token), Text(after)]];
    forall i | 0 <= i < |BINANCE_BODY|
      ensures Trace([BINANCE_BODY[i]], b, docs) == OncePiece(BINANCE_BODY[i], b, others)
    {
      match BINANCE_BODY[i]
      case Text(_) => TraceOfUnbound([BINANCE_BODY[i]], b, docs);
      case Hole(h) =>
        TraceOfHole(h, b, docs);
        var j := PassOf(b, h);
        if j == 3 {
          MixedTrace(v, before, after);
        } else if j < 20 {
          PlainDocs(v, before, after, j);
          TraceOfPlain(docs[j], b[j + 1..], docs[j + 1..]);
        }
    }
    TracePieces(BINANCE_BODY, b, docs, others);
  }

  lemma ResolvedReads(v: Values, before: string, after: string)
    requires MixedSymbol(v, before, after)
    ensures Reads(BINANCE_BODY, BodyBindings(Resolved(v, before, after)),
                  DocsOf(v, before, after)[3 := [Text(before), Text(v.token), Text(after)]], BINANCE_NAMES)
  {
    var w := Resolved(v, before, after);
    BinancePasses(w);
    BodyKeysBraceFree(w);
    BinanceReads(v, before, after);
    BinancePasses(v);
    SameKeys(v, w);
    hide BodyBindings, OpenFree, Tag, Render, BINANCE_BODY, BINANCE_NAMES, BraceFree;
    var b := BodyBindings(w);
    var others := DocsOf(v, before, after)[3 := [Text(before), Text(v.token), Text(after)]];
    RenderPlain(before, v.token, after);
    forall j | 0 <= j < |b| && b[j].0 in BINANCE_NAMES
      ensures b[j].1 == Render(others[j]) && Clean(others[j]) && HolesWithin(others[j], BINANCE_NAMES)
    {
      if j != 3 {
        assert b[j] == BodyBindings(v)[j] && others[j] == DocsOf(v, before, after)[j];
      }
    }
  }

  lemma SameKeys(v: Values, w: Values)
    requires w == v.(symbol := w.symbol)
    ensures |BodyBindings(v)| == |BodyBindings(w)| == 20
    ensures forall j | 0 <= j < 20 :: BodyBindings(w)[j].0 == BodyBindings(v)[j].0
    ensures forall j | 0 <= j < 20 && j != 3 :: BodyBindings(w)[j] == BodyBindings(v)[j]
  {
  }

  lemma RenderPlain(a: string, b: string, c: string)
    ensures Render([Text(a), Text(b), Text(c)]) == a + b + c
  {
    assert [Text(a), Text(b), Text(c)] == [Text(a)] + ([Text(b)] + [Text(c)]);
    RenderAppend([Text(a)], [Text(b)] + [Text(c)]);
    RenderAppend([Text(b)], [Text(c)]);
    RenderOne(Text(a));
    RenderOne(Text(b));
    RenderOne(Text(c));
    assert a + (b + c) == a + b + c;
  }

  // The twenty passes over such an order give the body of an order whose symbol has the other value in
  // the place of its placeholder.
  lemma SymbolIsResolved(v: Values, before: string, after: string)
    requires MixedSymbol(v, before, after)
    ensures Passes(DefaultBodyForType("binance"), BodyBindings(v)) ==
            Lead("binance") + Render(Subst(BodyDoc("binance"), Env(BodyBindings(Resolved(v, before, after)))))
  {
    hide BodyBindings, OpenFree, Tag, Env, Subst, Passes, Render, PassOf;
    hide BINANCE_BODY, BINANCE_NAMES, Trace, Once, Reads;
    var docs := DocsOf(v, before, after);
    var w := Resolved(v, before, after);
    BinanceHasSymbol();
    BinanceReads(v, before, after);
    BodyPasses("binance", v, docs, BINANCE_NAMES);
    PassesTrace(BINANCE_BODY, BodyBindings(v), docs, BINANCE_NAMES);
    ResolvedTrace(v, before, after);
    SameKeys(v, w);
    ResolvedReads(v, before, after);
    var others := docs[3 := [Text(before), Text(v.token), Text(after)]];
    OnceByKeys(BINANCE_BODY, BodyBindings(v), BodyBindings(w), others);
    BodyKeysDistinct(w);
    OnceIsSubst(BINANCE_BODY, BodyBindings(w), others, BINANCE_NAMES);
  }

  // That is not the simultaneous substitution: the symbol's pass brings the placeholder in, and the last
  // pass replaces it.
  lemma SymbolIsReplacedAgain(v: Values, before: string, after: string)
    requires MixedSymbol(v, before, after)
    ensures Passes(DefaultBodyForType("binance"), BodyBindings(v)) !=
            Lead("binance") + Render(Subst(BodyDoc("binance"), Env(BodyBindings(v))))
  {
    hide BodyBindings, OpenFree, Tag, Env, Subst, Passes, Render, PassOf, BINANCE_BODY, BINANCE_NAMES;
    var b := BodyBindings(v);
    var docs := DocsOf(v, before, after);
    BinanceReads(v, before, after);
    BinancePasses(v);
    BinanceHasSymbol();
    SymbolPass(v);
    forall i | 0 <= i < |BINANCE_BODY| && BINANCE_BODY[i].Hole?
      ensures var j := PassOf(b, BINANCE_BODY[i].name); j < |b| ==> Shallow(docs[j], b[j + 1..], docs[j + 1..])
    {
      var j := PassOf(b, BINANCE_BODY[i].name);
      if j < |b| {
        ShallowValue(v, before, after, j);
      }
    }
    var i :| 0 <= i < |BINANCE_BODY| && BINANCE_BODY[i] == Hole("symbol");
    assert docs[4..][15] == docs[19] == [Text(v.token)];
    assert OncePiece(docs[3][1], b[4..], docs[4..]) == [Text(v.token)];
    assert Unsettled(docs[3], b[4..], docs[4..]);
    assert Overtaken(b, docs, "symbol");
    BodySubstitutesIff("binance", v, docs, BINANCE_NAMES);
  }

  lemma ShallowValue(v: Values, before: string, after: string, j: nat)
    requires j < 20
    ensures |BodyBindings(v)| == 20
    ensures Shallow(DocsOf(v, before, after)[j], BodyBindings(v)[j + 1..], DocsOf(v, before, after)[j + 1..])
  {
    BinancePasses(v);
    hide BodyBindings, PassOf;
    var b := BodyBindings(v);
    var docs := DocsOf(v, before, after);
    var value := docs[j];
    forall i | 0 <= i < |value|
      ensures var once := OncePiece(value[i], b[j + 1..], docs[j + 1..]); once == [value[i]] || Holes(once) == 0
    {
      if value[i].Hole? {
        var m := PassOf(b[j + 1..], value[i].name);
        if m < |b[j + 1..]| {
          assert docs[j + 1..][m] == docs[j + 1 + m] == [Text(b[j + 1 + m].1)];
          assert docs[j + 1 + m][1..] == [];
        }
      }
    }
  }

  lemma BinanceHasSymbol()
    ensures BodyDoc("binance") == BINANCE_BODY && Lead("binance") == "{"
    ensures exists i :: 0 <= i < |BINANCE_BODY| && BINANCE_BODY[i] == Hole("symbol")
  {
    assert BINANCE_BODY[11] == Hole("symbol");
  }
}
