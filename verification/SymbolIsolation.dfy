// Which symbols and members tools/isolate_webrtc_boringssl_symbols.py renames, and what that does
// to the links inside the archive and to the collision with system OpenSSL.

module SymbolIsolation {
  type Name = string

  const PREFIX := "webrtcvendored_"

  /** One line of an object's symbol table as nm prints it; an undefined symbol has no address. */
  datatype Symbol = Symbol(name: Name, letter: char, hasAddress: bool)

  type Object = set<Symbol>
  type Archive = seq<Object>

  predicate DefinedLetter(c: char) { c in "TtWwDdBbRr" }

  /** The two sets nm_defined_and_undefined extracts from nm's output. */
  function NmDefined(o: Object): set<Name> {
    set s | s in o && s.hasAddress && DefinedLetter(s.letter) :: s.name
  }

  function NmUndefined(o: Object): set<Name> {
    set s | s in o && !s.hasAddress && s.letter == 'U' :: s.name
  }

  predicate Mangled(name: Name) { "_Z" <= name }

  predicate IsTarget(name: Name, system: set<Name>) { !Mangled(name) && name in system }

  /** target_syms */
  function Targets(a: Archive, system: set<Name>): set<Name> {
    set o, n | o in a && n in NmDefined(o) && IsTarget(n, system) :: n
  }

  lemma TargetsStep(a: Archive, i: nat, system: set<Name>)
    requires i < |a|
    ensures Targets(a[..i + 1], system)
            == Targets(a[..i], system) + set n | n in NmDefined(a[i]) && IsTarget(n, system)
  {
    assert a[..i + 1] == a[..i] + [a[i]];
  }

  function Rename(name: Name, targets: set<Name>): Name {
    if name in targets then PREFIX + name else name
  }

  /** llvm-objcopy --redefine-syms: every symbol of the map is renamed, whatever its letter. */
  function Redefine(o: Object, targets: set<Name>): Object {
    set s | s in o :: s.(name := Rename(s.name, targets))
  }

  /** (d | u) & target_syms */
  predicate Touched(o: Object, targets: set<Name>) {
    (NmDefined(o) + NmUndefined(o)) * targets != {}
  }

  /** Only touched members go through objcopy. */
  function IsolateWith(a: Archive, targets: set<Name>): (r: Archive)
    ensures |r| == |a|
  {
    seq(|a|, i requires 0 <= i < |a| => if Touched(a[i], targets) then Redefine(a[i], targets) else a[i])
  }

  /** The archive the script writes. */
  function Isolate(a: Archive, system: set<Name>): Archive { IsolateWith(a, Targets(a, system)) }

  /** Both passes over the members, as loops. */
  method IsolateMembers(a: Archive, system: set<Name>) returns (out: Archive, targets: set<Name>)
    ensures targets == Targets(a, system) && out == Isolate(a, system)
  {
    targets := {};
    for i := 0 to |a|
      invariant targets == Targets(a[..i], system)
    {
      TargetsStep(a, i, system);
      targets := targets + set n | n in NmDefined(a[i]) && IsTarget(n, system);
    }
    assert a[..|a|] == a;
    out := [];
    for i := 0 to |a|
      invariant out == Isolate(a, system)[..i]
    {
      out := out + [if Touched(a[i], targets) then Redefine(a[i], targets) else a[i]];
    }
  }

  /** The symbols an object mentions at all. */
  function Names(o: Object): set<Name> { set s | s in o :: s.name }

  /** Every member that mentions a target symbol has one that nm reports under a letter the script
      reads. This fails for a member whose only mention is, say, a weak reference ("w" or "v" without
      an address). */
  ghost predicate Reported(a: Archive, targets: set<Name>) {
    forall o | o in a && Names(o) * targets != {} :: Touched(o, targets)
  }

  /** The fully renamed archive. */
  function RenameAll(a: Archive, targets: set<Name>): (r: Archive)
    ensures |r| == |a|
  {
    seq(|a|, i requires 0 <= i < |a| => Redefine(a[i], targets))
  }

  /** Renaming cannot reproduce an object that mentions a target: going back along the prefix, the
      names would get shorter forever. */
  lemma {:induction false} RenamingMovesTargets(o: Object, targets: set<Name>, s: Symbol)
    requires s in o && s.name in targets
    ensures Redefine(o, targets) != o
    decreases |s.name|
  {
    if Redefine(o, targets) == o {
      var s0 :| s0 in o && s == s0.(name := Rename(s0.name, targets));
      RenamingMovesTargets(o, targets, s0);
    }
  }

  lemma UnmentionedIsUnchanged(o: Object, targets: set<Name>)
    requires Names(o) * targets == {}
    ensures Redefine(o, targets) == o
  {
    forall s | s in o
      ensures s.(name := Rename(s.name, targets)) == s
    {
      assert s.name in targets ==> s.name in Names(o) * targets;
    }
  }

  /** Renaming only the touched members equals renaming every member, exactly when every member that
      mentions a target is reported. */
  lemma TouchedOnlyEqualsAllIffReported(a: Archive, targets: set<Name>)
    ensures IsolateWith(a, targets) == RenameAll(a, targets) <==> Reported(a, targets)
  {
    var some, all := IsolateWith(a, targets), RenameAll(a, targets);
    forall i | 0 <= i < |a|
      ensures some[i] == all[i] <==> (Names(a[i]) * targets != {} ==> Touched(a[i], targets))
    {
      if Names(a[i]) * targets == {} {
        UnmentionedIsUnchanged(a[i], targets);
      } else if !Touched(a[i], targets) {
        var n :| n in Names(a[i]) * targets;
        var s :| s in a[i] && s.name == n;
        RenamingMovesTargets(a[i], targets, s);
      }
    }
  }

  // Links: which members define the symbol that a reference names.

  function Defines(o: Object): set<Name> { set s | s in o && s.hasAddress :: s.name }

  function References(o: Object): set<Name> { set s | s in o && !s.hasAddress :: s.name }

  function Definers(a: Archive, n: Name): set<nat> {
    set i: nat | i < |a| && n in Defines(a[i])
  }

  function AllNames(a: Archive): set<Name> { set o, n | o in a && n in Names(o) :: n }

  /** No other symbol of the archive already carries the name a target is given. */
  ghost predicate Fresh(a: Archive, targets: set<Name>) {
    forall t | t in targets && PREFIX + t in AllNames(a) :: PREFIX + t in targets
  }

  /** Freshness is what keeps distinct symbols distinct. */
  lemma RenameInjectiveIffFresh(a: Archive, targets: set<Name>)
    requires targets <= AllNames(a)
    ensures (forall x, y | x in AllNames(a) && y in AllNames(a) :: Rename(x, targets) == Rename(y, targets) ==> x == y)
            <==> Fresh(a, targets)
  {
    if Fresh(a, targets) {
      forall x, y | x in AllNames(a) && y in AllNames(a) && Rename(x, targets) == Rename(y, targets)
        ensures x == y
      {
        assert PREFIX + x == PREFIX + y ==> x == (PREFIX + x)[|PREFIX|..] == (PREFIX + y)[|PREFIX|..] == y;
      }
    } else {
      var t :| t in targets && PREFIX + t in AllNames(a) && PREFIX + t !in targets;
      assert Rename(t, targets) == Rename(PREFIX + t, targets);
    }
  }

  lemma TargetIsNamed(a: Archive, system: set<Name>, t: Name)
    requires t in Targets(a, system)
    ensures t in AllNames(a) && exists i: nat :: i < |a| && t in NmDefined(a[i]) && t in Defines(a[i])
  {
    var o :| o in a && t in NmDefined(o) && IsTarget(t, system);
    var i :| 0 <= i < |a| && a[i] == o;
    var s :| s in o && s.hasAddress && DefinedLetter(s.letter) && s.name == t;
    assert t in Names(o) && t in Defines(a[i]);
  }

  lemma RedefineMapsNames(o: Object, targets: set<Name>)
    ensures Defines(Redefine(o, targets)) == set n | n in Defines(o) :: Rename(n, targets)
    ensures References(Redefine(o, targets)) == set n | n in References(o) :: Rename(n, targets)
  {
    var r := Redefine(o, targets);
    forall s | s in o
      ensures s.(name := Rename(s.name, targets)) in r
    {
    }
    forall n | n in Defines(o)
      ensures Rename(n, targets) in Defines(r)
    {
      var s :| s in o && s.hasAddress && s.name == n;
      assert s.(name := Rename(n, targets)) in r;
    }
    forall n | n in References(o)
      ensures Rename(n, targets) in References(r)
    {
      var s :| s in o && !s.hasAddress && s.name == n;
      assert s.(name := Rename(n, targets)) in r;
    }
  }

  lemma NamesCover(a: Archive, i: nat)
    requires i < |a|
    ensures Defines(a[i]) <= AllNames(a) && References(a[i]) <= AllNames(a)
  {
    forall n | n in Defines(a[i]) + References(a[i])
      ensures n in AllNames(a)
    {
      var s :| s in a[i] && s.name == n;
      assert n in Names(a[i]) && a[i] in a;
    }
  }

  /** The name that the symbol n of the member o has afterwards. */
  function Image(o: Object, n: Name, targets: set<Name>): Name {
    if Touched(o, targets) then Rename(n, targets) else n
  }

  lemma DefinesOfIsolated(a: Archive, targets: set<Name>, i: nat)
    requires i < |a|
    ensures Defines(IsolateWith(a, targets)[i]) == set n | n in Defines(a[i]) :: Image(a[i], n, targets)
  {
    RedefineMapsNames(a[i], targets);
  }

  /** What the reference n of member i names afterwards has the defining members it had before. */
  ghost predicate LinkKept(a: Archive, targets: set<Name>, i: nat, n: Name)
    requires i < |a|
  {
    Definers(IsolateWith(a, targets), Image(a[i], n, targets)) == Definers(a, n)
  }

  /** Member j gives the symbol n a name that comes out as m. */
  ghost predicate ComesOut(a: Archive, targets: set<Name>, j: nat, m: Name)
    requires j < |a|
  {
    exists x :: x in Defines(a[j]) && Image(a[j], x, targets) == m
  }

  lemma DefinersAfter(a: Archive, targets: set<Name>, j: nat, m: Name)
    requires j < |a|
    ensures j in Definers(IsolateWith(a, targets), m) <==> ComesOut(a, targets, j, m)
  {
    DefinesOfIsolated(a, targets, j);
  }

  /** A target under which member j defines n once it is renamed. */
  ghost predicate RenamedTo(a: Archive, targets: set<Name>, j: nat, n: Name)
    requires j < |a|
  {
    exists x :: x in targets && x in Defines(a[j]) && PREFIX + x == n
  }

  /** The definitions of n move along with the reference of member i: if that member is renamed, a
      member that is not must define both n and its new name or neither; if it is not, a renamed
      member must define n exactly if a target of it becomes n. */
  ghost predicate LinkSafe(a: Archive, targets: set<Name>, i: nat, n: Name)
    requires i < |a|
  {
    n in targets ==>
      if Touched(a[i], targets) then
        forall j: nat | j < |a| && !Touched(a[j], targets) :: n in Defines(a[j]) <==> PREFIX + n in Defines(a[j])
      else
        forall j: nat | j < |a| && Touched(a[j], targets) :: n in Defines(a[j]) <==> RenamedTo(a, targets, j, n)
  }

  lemma PrefixInjective(x: Name, y: Name)
    requires PREFIX + x == PREFIX + y
    ensures x == y
  {
    assert x == (PREFIX + x)[|PREFIX|..] == (PREFIX + y)[|PREFIX|..] == y;
  }

  /** When member j defines, under its new name, what the reference n of member i has become. */
  lemma ComesOutIff(a: Archive, targets: set<Name>, i: nat, n: Name, j: nat)
    requires Fresh(a, targets) && i < |a| && j < |a| && n in AllNames(a)
    ensures ComesOut(a, targets, j, Image(a[i], n, targets)) <==>
            if n !in targets || Touched(a[i], targets) == Touched(a[j], targets) then n in Defines(a[j])
            else if Touched(a[i], targets) then PREFIX + n in Defines(a[j])
            else RenamedTo(a, targets, j, n)
  {
    var m := Image(a[i], n, targets);
    NamesCover(a, j);
    if n in Defines(a[j]) {
      assert Image(a[j], n, targets) == m || (n in targets && Touched(a[i], targets) != Touched(a[j], targets));
    }
    if ComesOut(a, targets, j, m) {
      var x :| x in Defines(a[j]) && Image(a[j], x, targets) == m;
      if x in targets && n in targets && PREFIX + x == PREFIX + n { PrefixInjective(x, n); }
    }
  }

  /** A reference keeps its definitions if and only if they move along with it. */
  lemma LinkKeptIff(a: Archive, targets: set<Name>, i: nat, n: Name)
    requires Fresh(a, targets) && i < |a| && n in References(a[i])
    ensures LinkKept(a, targets, i, n) <==> LinkSafe(a, targets, i, n)
  {
    hide ComesOut, RenamedTo;
    NamesCover(a, i);
    var before, after := Definers(a, n), Definers(IsolateWith(a, targets), Image(a[i], n, targets));
    forall j: nat | j < |a|
      ensures j in after <==> ComesOut(a, targets, j, Image(a[i], n, targets))
    {
      DefinersAfter(a, targets, j, Image(a[i], n, targets));
      ComesOutIff(a, targets, i, n, j);
    }
    forall j: nat | j < |a|
      ensures (j in before <==> j in after) <==>
              (n in targets && Touched(a[i], targets) != Touched(a[j], targets) ==>
                 if Touched(a[i], targets) then n in Defines(a[j]) <==> PREFIX + n in Defines(a[j])
                 else n in Defines(a[j]) <==> RenamedTo(a, targets, j, n))
    {
      ComesOutIff(a, targets, i, n, j);
    }
    assert before == after <==> forall j: nat | j < |a| :: j in before <==> j in after;
  }

  ghost predicate Referenced(a: Archive, n: Name) { exists i: nat :: i < |a| && n in References(a[i]) }

  /** No symbol carries a prefixed target name: what the prefix was chosen for. */
  ghost predicate Unprefixed(a: Archive, targets: set<Name>) {
    forall t | t in targets :: PREFIX + t !in AllNames(a)
  }

  /** Every member that defines or references a target which some member references is one the script
      sees. */
  ghost predicate LinkedTouched(a: Archive, targets: set<Name>) {
    forall j: nat, t | j < |a| && t in targets && t in Defines(a[j]) + References(a[j]) && Referenced(a, t) ::
      Touched(a[j], targets)
  }

  lemma TargetTouched(a: Archive, system: set<Name>, t: Name) returns (j: nat)
    requires t in Targets(a, system)
    ensures j < |a| && t in Defines(a[j]) && Touched(a[j], Targets(a, system))
  {
    TargetIsNamed(a, system, t);
    j :| j < |a| && t in NmDefined(a[j]) && t in Defines(a[j]);
    assert t in (NmDefined(a[j]) + NmUndefined(a[j])) * Targets(a, system);
  }

  lemma NeverRenamedTo(a: Archive, targets: set<Name>, j: nat, n: Name)
    requires Unprefixed(a, targets) && j < |a| && n in AllNames(a)
    ensures !RenamedTo(a, targets, j, n)
  {
  }

  /** With a prefix that nothing carries, a link to a target is kept if and only if its own member and
      every member that defines the target are renamed. */
  lemma SafeUnprefixed(a: Archive, system: set<Name>, i: nat, n: Name)
    requires Unprefixed(a, Targets(a, system)) && i < |a| && n in References(a[i]) && n in Targets(a, system)
    ensures var targets := Targets(a, system);
            LinkSafe(a, targets, i, n) <==>
            Touched(a[i], targets) && forall j: nat | j < |a| && n in Defines(a[j]) :: Touched(a[j], targets)
  {
    hide RenamedTo, Targets, Touched;
    var targets := Targets(a, system);
    NamesCover(a, i);
    var k := TargetTouched(a, system, n);
    forall j: nat | j < |a| ensures PREFIX + n !in Defines(a[j]) && !RenamedTo(a, targets, j, n) {
      NamesCover(a, j);
      NeverRenamedTo(a, targets, j, n);
    }
  }

  /** Every link of the archive is kept if and only if the script sees every member that defines or
      references a referenced target. */
  lemma AllLinksKeptIff(a: Archive, system: set<Name>)
    requires Unprefixed(a, Targets(a, system))
    ensures (forall i: nat, n | i < |a| && n in References(a[i]) :: LinkKept(a, Targets(a, system), i, n))
            <==> LinkedTouched(a, Targets(a, system))
  {
    hide LinkKept, LinkSafe, Targets, Touched, Defines, References;
    var targets := Targets(a, system);
    forall i: nat, n | i < |a| && n in References(a[i])
      ensures LinkKept(a, targets, i, n) <==>
              (n in targets ==>
                 Touched(a[i], targets) && forall j: nat | j < |a| && n in Defines(a[j]) :: Touched(a[j], targets))
    {
      LinkKeptIff(a, targets, i, n);
      if n in targets {
        SafeUnprefixed(a, system, i, n);
      } else {
        NoTargetSafe(a, targets, i, n);
      }
    }
    if forall i: nat, n | i < |a| && n in References(a[i]) :: LinkKept(a, targets, i, n) {
      forall j: nat, t | j < |a| && t in targets && t in Defines(a[j]) + References(a[j]) && Referenced(a, t)
        ensures Touched(a[j], targets)
      {
        var i: nat :| i < |a| && t in References(a[i]);
        assert LinkKept(a, targets, i, t);
        if t in References(a[j]) {
          assert LinkKept(a, targets, j, t);
        }
      }
    }
  }

  lemma NoTargetSafe(a: Archive, targets: set<Name>, i: nat, n: Name)
    requires i < |a| && n !in targets
    ensures LinkSafe(a, targets, i, n)
  {
  }

  /** If nm reports a target in every member that mentions one, every reference still names the same
      defining members, and a reference that the archive does not define keeps its name. */
  lemma LinksPreserved(a: Archive, system: set<Name>, i: nat, n: Name)
    requires Reported(a, Targets(a, system)) && Fresh(a, Targets(a, system))
    requires i < |a| && n in References(a[i])
    ensures var out, n' := Isolate(a, system), Rename(n, Targets(a, system));
            && n' in References(out[i]) && Definers(out, n') == Definers(a, n)
            && (Definers(a, n) == {} ==> n' == n)
  {
    var targets := Targets(a, system);
    if n in targets {
      var k := TargetTouched(a, system, n);
      assert k in Definers(a, n);
      assert Touched(a[i], targets) by { MentionTouched(a, targets, i, n); }
    }
    forall j: nat | j < |a| && !Touched(a[j], targets) && n in targets
      ensures n !in Defines(a[j]) && PREFIX + n !in Defines(a[j])
    {
      NamesCover(a, j);
      if n in Defines(a[j]) { MentionTouched(a, targets, j, n); }
      if PREFIX + n in Defines(a[j]) { MentionTouched(a, targets, j, PREFIX + n); }
    }
    assert LinkSafe(a, targets, i, n);
    LinkKeptIff(a, targets, i, n);
    RedefineMapsNames(a[i], targets);
  }

  lemma MentionTouched(a: Archive, targets: set<Name>, j: nat, n: Name)
    requires Reported(a, targets) && j < |a| && n in targets && n in Defines(a[j]) + References(a[j])
    ensures Touched(a[j], targets)
  {
    var s :| s in a[j] && s.name == n;
    assert n in Names(a[j]) * targets && a[j] in a;
  }

  /** An archive in which a link breaks: nm prints an unresolved weak reference as "w name", which the
      script takes for neither a definition nor a reference, so the member keeps the old name. */
  lemma WeakReferenceLosesItsDefinition(n: Name, system: set<Name>)
    requires IsTarget(n, system)
    ensures var a: Archive := [{Symbol(n, 'T', true)}, {Symbol(n, 'w', false)}];
            && Definers(a, n) == {0}
            && n in References(Isolate(a, system)[1])
            && Definers(Isolate(a, system), n) == {}
  {
    var def_, ref_ := Symbol(n, 'T', true), Symbol(n, 'w', false);
    var a: Archive := [{def_}, {ref_}];
    var targets := Targets(a, system);
    assert a[0] == {def_} && a[1] == {ref_} && a[0] in a && n in NmDefined(a[0]);
    assert n in targets;
    var out := Isolate(a, system);
    assert n in (NmDefined(a[0]) + NmUndefined(a[0])) * targets;
    assert NmDefined(a[1]) + NmUndefined(a[1]) == {};
    assert ref_ in out[1];
    DefinesOfIsolated(a, targets, 0);
    DefinesOfIsolated(a, targets, 1);
    assert Defines(a[0]) == {n} && Defines(a[1]) == {};
    assert |PREFIX + n| != |n|;
  }

  /** No plain-C symbol the archive defines is exported by system OpenSSL. */
  ghost predicate NoCollision(a: Archive, system: set<Name>) {
    forall o, n | o in a && n in Defines(o) :: !IsTarget(n, system)
  }

  /** nm showed the colliding definition n of o under one of the ten letters somewhere, and o is touched. */
  predicate Handled(o: Object, n: Name, targets: set<Name>) { n in targets && Touched(o, targets) }

  lemma PrefixedIsPlain(n: Name)
    ensures !Mangled(PREFIX + n)
  {
    assert (PREFIX + n)[0] == 'w';
  }

  predicate AllHandled(a: Archive, system: set<Name>, targets: set<Name>) {
    forall o, n | o in a && n in Defines(o) && IsTarget(n, system) :: Handled(o, n, targets)
  }

  predicate NoPrefixedExport(system: set<Name>, targets: set<Name>) {
    forall t | t in targets :: PREFIX + t !in system
  }

  lemma HandledSuffices(a: Archive, system: set<Name>, targets: set<Name>)
    requires AllHandled(a, system, targets) && NoPrefixedExport(system, targets)
    ensures NoCollision(IsolateWith(a, targets), system)
  {
    var out := IsolateWith(a, targets);
    forall o', n' | o' in out && n' in Defines(o')
      ensures !IsTarget(n', system)
    {
      var i: nat :| i < |out| && out[i] == o';
      DefinesOfIsolated(a, targets, i);
      var n :| n in Defines(a[i]) && n' == Image(a[i], n, targets);
      assert a[i] in a;
    }
  }

  lemma HandledNeeded(a: Archive, system: set<Name>, targets: set<Name>)
    requires NoCollision(IsolateWith(a, targets), system)
    ensures AllHandled(a, system, targets)
  {
    var out := IsolateWith(a, targets);
    forall o, n | o in a && n in Defines(o) && IsTarget(n, system)
      ensures Handled(o, n, targets)
    {
      var i: nat :| i < |a| && a[i] == o;
      DefinesOfIsolated(a, targets, i);
      assert Image(o, n, targets) in Defines(out[i]) && out[i] in out;
    }
  }

  lemma PrefixedTargetDefined(a: Archive, system: set<Name>, t: Name) returns (o: Object)
    requires t in Targets(a, system)
    ensures o in Isolate(a, system) && PREFIX + t in Defines(o)
  {
    var targets := Targets(a, system);
    TargetIsNamed(a, system, t);
    var i: nat :| i < |a| && t in NmDefined(a[i]) && t in Defines(a[i]);
    assert t in (NmDefined(a[i]) + NmUndefined(a[i])) * targets;
    DefinesOfIsolated(a, targets, i);
    o := Isolate(a, system)[i];
    assert Image(a[i], t, targets) in Defines(o);
  }

  lemma NoPrefixedExportNeeded(a: Archive, system: set<Name>)
    requires NoCollision(Isolate(a, system), system)
    ensures NoPrefixedExport(system, Targets(a, system))
  {
    forall t | t in Targets(a, system)
      ensures PREFIX + t !in system
    {
      var o := PrefixedTargetDefined(a, system, t);
      assert !IsTarget(PREFIX + t, system);
      PrefixedIsPlain(t);
    }
  }

  /** The collision is gone exactly when every colliding definition is handled and the system itself
      exports no prefixed target. */
  lemma CollisionGoneIff(a: Archive, system: set<Name>)
    ensures NoCollision(Isolate(a, system), system)
            <==> AllHandled(a, system, Targets(a, system)) && NoPrefixedExport(system, Targets(a, system))
  {
    var targets := Targets(a, system);
    if NoCollision(Isolate(a, system), system) {
      HandledNeeded(a, system, targets);
      NoPrefixedExportNeeded(a, system);
    }
    if AllHandled(a, system, targets) && NoPrefixedExport(system, targets) {
      HandledSuffices(a, system, targets);
    }
  }

  // The whole script on an archive that nm shows completely.

  /** Every symbol of the archive stands in nm's output under a letter that the script reads. */
  predicate Readable(a: Archive) {
    forall o, s | o in a && s in o ::
      if s.hasAddress then s.letter in {'T', 't', 'W', 'w', 'D', 'd', 'B', 'b', 'R', 'r'} else s.letter == 'U'
  }

  /** A plain-C symbol that the archive defines and the system exports too. */
  predicate Collides(a: Archive, system: set<Name>, n: Name) {
    !("_Z" <= n) && n in system && exists o :: o in a && n in Defines(o)
  }

  function Isolated(a: Archive, system: set<Name>, n: Name): Name {
    if Collides(a, system, n) then "webrtcvendored_" + n else n
  }

  /** Nothing begins with the prefix yet. */
  predicate PrefixUnused(a: Archive, system: set<Name>) {
    (forall n | n in AllNames(a) :: !("webrtcvendored_" <= n)) && forall n | n in system :: !("webrtcvendored_" <= n)
  }

  lemma ReadableDefines(o: Object)
    requires forall s | s in o ::
               if s.hasAddress then s.letter in {'T', 't', 'W', 'w', 'D', 'd', 'B', 'b', 'R', 'r'} else s.letter == 'U'
    ensures NmDefined(o) == Defines(o) && NmUndefined(o) == References(o)
    ensures Defines(o) + References(o) == Names(o)
  {
  }

  /** nm's report then misses nothing, whatever is to be renamed. */
  lemma ReadableIsReported(a: Archive, targets: set<Name>)
    requires Readable(a)
    ensures Reported(a, targets)
  {
    forall o | o in a && Names(o) * targets != {} ensures Touched(o, targets) {
      ReadableDefines(o);
      var n :| n in Names(o) * targets;
      assert n in (NmDefined(o) + NmUndefined(o)) * targets;
    }
  }

  lemma ReadableTargets(a: Archive, system: set<Name>, n: Name)
    requires Readable(a)
    ensures n in Targets(a, system) <==> Collides(a, system, n)
  {
    forall o | o in a ensures NmDefined(o) == Defines(o) { ReadableDefines(o); }
    if Collides(a, system, n) {
      var o :| o in a && n in Defines(o);
      assert n in NmDefined(o) && IsTarget(n, system);
    }
  }

  lemma ReadableFacts(a: Archive, system: set<Name>)
    requires Readable(a) && PrefixUnused(a, system)
    ensures var targets := Targets(a, system);
            Reported(a, targets) && Fresh(a, targets) && AllHandled(a, system, targets) &&
            NoPrefixedExport(system, targets) && IsolateWith(a, targets) == RenameAll(a, targets)
  {
    hide Readable, Targets, AllHandled, IsolateWith, RenameAll;
    var targets := Targets(a, system);
    ReadableIsReported(a, targets);
    TouchedOnlyEqualsAllIffReported(a, targets);
    AllHandledIfReadable(a, system);
    forall t | t in targets ensures "webrtcvendored_" <= PREFIX + t {}
  }

  /** Every member comes out with its colliding symbols, and no others, under the prefix. */
  lemma MemberIsIsolated(a: Archive, system: set<Name>, i: nat)
    requires Readable(a) && PrefixUnused(a, system) && i < |a|
    ensures Isolate(a, system)[i] == set s | s in a[i] :: s.(name := Isolated(a, system, s.name))
  {
    hide Readable, PrefixUnused, Targets, Collides;
    var targets := Targets(a, system);
    ReadableFacts(a, system);
    forall n ensures Rename(n, targets) == Isolated(a, system, n) { ReadableTargets(a, system, n); }
    assert Isolate(a, system)[i] == RenameAll(a, targets)[i] == Redefine(a[i], targets);
  }

  /** Nothing that a member then defines collides. */
  lemma NothingCollides(a: Archive, system: set<Name>)
    requires Readable(a) && PrefixUnused(a, system)
    ensures forall o, n | o in Isolate(a, system) && n in Defines(o) :: "_Z" <= n || n !in system
  {
    hide Readable, PrefixUnused, Targets, AllHandled, IsolateWith;
    ReadableFacts(a, system);
    HandledSuffices(a, system, Targets(a, system));
    forall o, n | o in Isolate(a, system) && n in Defines(o) ensures "_Z" <= n || n !in system {
      assert !IsTarget(n, system);
    }
  }

  /** Every reference is defined by the members that defined it before. */
  lemma LinkIsIsolated(a: Archive, system: set<Name>, i: nat, n: Name)
    requires Readable(a) && PrefixUnused(a, system) && i < |a| && n in References(a[i])
    ensures Definers(Isolate(a, system), Isolated(a, system, n)) == Definers(a, n)
  {
    hide Readable, PrefixUnused, Targets, AllHandled, IsolateWith, Collides, Definers;
    ReadableFacts(a, system);
    ReadableTargets(a, system, n);
    LinksPreserved(a, system, i, n);
  }

  lemma AllHandledIfReadable(a: Archive, system: set<Name>)
    requires Readable(a)
    ensures AllHandled(a, system, Targets(a, system))
  {
    var targets := Targets(a, system);
    ReadableIsReported(a, targets);
    forall o, n | o in a && n in Defines(o) && IsTarget(n, system)
      ensures Handled(o, n, targets)
    {
      ReadableDefines(o);
      assert n in NmDefined(o) && n in Names(o) * targets;
    }
  }
}
