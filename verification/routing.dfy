/**
 * How `writeGoFiles` (output.go:24-114) routes each declaration to a Go
 * output file and what it appends to that file's printer (output.go:27-80),
 * and how the configured diffs are applied to a finished buffer
 * (output.go:103-108). A printer is represented by the text in its buffer.
 */
module Routing {
  import opened Wrappers
  import opened GoStrings

  /** The comment text printed around a declaration: leading, same-line and trailing. */
  datatype Comments = Comments(before: string, suffix: string, after: string)

  /**
   * What the routing reads of a `*cc.Decl`. `cfile` is `Span.Start.File`;
   * `rendered` is what the printer prints for the whole declaration.
   */
  datatype DeclInfo = DeclInfo(name: string, goPackage: string, cfile: string, comments: Comments, rendered: string)

  /** A configured textual diff and the number of output files it has been applied to. */
  datatype Diff = Diff(before: string, after: string, used: int)

  /** The parts of the configuration the routing and the diff pass use. */
  class Config {
    const replace: map<string, string>
    const delete: map<string, bool>
    const diffs: array<Diff>

    constructor (replace: map<string, string>, delete: map<string, bool>, diffs: array<Diff>)
      ensures this.replace == replace && this.delete == delete && this.diffs == diffs
    {
      this.replace := replace;
      this.delete := delete;
      this.diffs := diffs;
    }

    /**
     * The diff loop for one output buffer: each diff whose `before` text
     * occurs in the buffer so far replaces every occurrence and counts one
     * more use; any other diff changes neither the buffer nor its count.
     */
    method ApplyDiffs(buf: string) returns (out: string)
      modifies diffs
      ensures out == Stage(old(diffs[..]), buf, diffs.Length)
      ensures forall i :: 0 <= i < diffs.Length ==>
        diffs[i] == CountedAt(old(diffs[..]), buf, i)
    {
      ghost var ds := diffs[..];
      out := buf;
      for i := 0 to diffs.Length
        invariant out == Stage(ds, buf, i)
        invariant forall j :: 0 <= j < i ==> diffs[j] == CountedAt(ds, buf, j)
        invariant forall j :: i <= j < diffs.Length ==> diffs[j] == ds[j]
      {
        var d := diffs[i];
        if Contains(out, d.before) {
          out := ReplaceAll(out, d.before, d.after);
          diffs[i] := d.(used := d.used + 1);
        }
      }
    }

    /**
     * The loop of output.go:82-113 over the printers, taken in `order`
     * (Go's map iteration order): each buffer is cleaned up and formatted
     * (`Prepare`) and then passed through the diffs. What is written for a
     * file does not depend on the order; each diff counts the files it
     * applied to.
     */
    method WriteFiles(printers: map<string, string>, order: seq<string>, format: string -> Option<string>)
      returns (written: map<string, string>)
      requires forall f :: f in printers <==> f in order
      requires forall a, b :: 0 <= a < b < |order| ==> order[a] != order[b]
      modifies diffs
      ensures written.Keys == printers.Keys
      ensures forall f :: f in written ==> written[f] == Stage(old(diffs[..]), Prepare(printers[f], format), diffs.Length)
      ensures forall i :: 0 <= i < diffs.Length ==>
        diffs[i] == old(diffs[i]).(used := old(diffs[i]).used + Hits(old(diffs[..]), Prepared(printers, order, format), i))
    {
      ghost var ds := diffs[..];
      ghost var bufs := Prepared(printers, order, format);
      written := map[];
      for k := 0 to |order|
        invariant forall f :: f in written <==> f in order[..k]
        invariant forall f :: f in written ==> written[f] == Stage(ds, Prepare(printers[f], format), |ds|)
        invariant Recounted(ds, diffs[..], bufs[..k])
      {
        var gofile := order[k];
        var prepared := Prepare(printers[gofile], format);
        ghost var cur := diffs[..];
        var buf := ApplyDiffs(prepared);
        RecountedStage(ds, cur, bufs[..k], prepared, |ds|);
        assert prepared == bufs[k];
        RecountedNext(ds, cur, diffs[..], bufs, k);
        written := written[gofile := buf];
        PrefixMembers(order, k);
      }
      assert order[..|order|] == order;
      assert bufs[..|order|] == bufs;
    }
  }

  // ----- the diff pass, as functions -----

  /** One diff applied to a buffer. */
  function ApplyDiff(d: Diff, buf: string): string {
    if Contains(buf, d.before) then ReplaceAll(buf, d.before, d.after) else buf
  }

  /** The buffer after the first `n` diffs of `ds`. */
  function Stage(ds: seq<Diff>, buf: string, n: nat): string
    requires n <= |ds|
  {
    if n == 0 then buf else ApplyDiff(ds[n - 1], Stage(ds, buf, n - 1))
  }

  /** A diff's counter after it met buffer `buf`. */
  function Counted(d: Diff, buf: string): (c: Diff)
    ensures c.before == d.before && c.after == d.after
    ensures c.used == d.used + 1 <==> Contains(buf, d.before)
    ensures c.used == d.used <==> !Contains(buf, d.before)
  {
    if Contains(buf, d.before) then d.(used := d.used + 1) else d
  }

  /** Diff `j` of `ds` after it met the buffer the earlier diffs left. */
  function CountedAt(ds: seq<Diff>, buf: string, j: nat): Diff
    requires j < |ds|
  {
    Counted(ds[j], Stage(ds, buf, j))
  }

  /** The number of buffers of `bufs` that diff `i` applies to, after the diffs before it. */
  function Hits(ds: seq<Diff>, bufs: seq<string>, i: nat): (n: nat)
    requires i < |ds|
    ensures n <= |bufs|
    decreases |bufs|
  {
    if bufs == [] then 0
    else Hits(ds, bufs[..|bufs| - 1], i) + (if Contains(Stage(ds, bufs[|bufs| - 1], i), ds[i].before) then 1 else 0)
  }

  /** `cur` is `ds` after the diff pass over `bufs`: same texts, counts raised by the hits. */
  predicate Recounted(ds: seq<Diff>, cur: seq<Diff>, bufs: seq<string>) {
    |cur| == |ds| && forall i :: 0 <= i < |ds| ==> cur[i] == ds[i].(used := ds[i].used + Hits(ds, bufs, i))
  }

  /** The buffers after the counters changed are what they would have been before: counts do not affect text. */
  lemma {:induction false} RecountedStage(ds: seq<Diff>, cur: seq<Diff>, bufs: seq<string>, buf: string, n: nat)
    requires Recounted(ds, cur, bufs) && n <= |ds|
    ensures Stage(cur, buf, n) == Stage(ds, buf, n)
  {
    if n > 0 {
      RecountedStage(ds, cur, bufs, buf, n - 1);
      assert cur[n - 1].before == ds[n - 1].before && cur[n - 1].after == ds[n - 1].after;
    }
  }

  /** One more buffer through the diffs adds its hits to the counts. */
  lemma RecountedNext(ds: seq<Diff>, cur: seq<Diff>, next: seq<Diff>, bufs: seq<string>, k: nat)
    requires k < |bufs| && Recounted(ds, cur, bufs[..k])
    requires |next| == |cur| && forall i :: 0 <= i < |cur| ==> next[i] == CountedAt(cur, bufs[k], i)
    ensures Recounted(ds, next, bufs[..k + 1])
  {
    assert bufs[..k + 1][..k] == bufs[..k];
    forall i | 0 <= i < |ds|
      ensures next[i] == ds[i].(used := ds[i].used + Hits(ds, bufs[..k + 1], i))
    {
      RecountedStage(ds, cur, bufs[..k], bufs[k], i);
    }
  }

  /**
   * What happens to a printer's buffer before the diffs (output.go:85-101):
   * two line-break fix-ups, `format.Source` (the parameter `format`; on
   * failure the buffer is kept), and the removal of a blank line after `{`.
   */
  function Prepare(buf: string, format: string -> Option<string>): string {
    DropBlankAfterBrace(Reformat(JoinBrokenLines(buf), format))
  }

  /** Rejoins a line break before a comma and before a brace (output.go:88-89). */
  function JoinBrokenLines(buf: string): string {
    ReplaceAll(ReplaceAll(buf, "\n,", ","), "\n {", " {")
  }

  /** The formatter's output, or the buffer itself when formatting fails (output.go:91-98). */
  function Reformat(buf: string, format: string -> Option<string>): string {
    match format(buf) case Some(b) => b case None => buf
  }

  /** Removes the blank line after an opening brace (output.go:101). */
  function DropBlankAfterBrace(buf: string): string {
    ReplaceAll(buf, "{\n\n", "{\n")
  }

  /** A buffer with nothing to fix that the formatter leaves as it is goes to the diffs unchanged. */
  lemma PrepareClean(buf: string, format: string -> Option<string>)
    requires !Contains(buf, "\n,") && !Contains(buf, "\n {") && !Contains(buf, "{\n\n")
    requires format(buf) == Some(buf) || format(buf) == None
    ensures Prepare(buf, format) == buf
  {
    ReplaceAbsent(buf, "\n,", ",");
    ReplaceAbsent(buf, "\n {", " {");
    ReplaceAbsent(buf, "{\n\n", "{\n");
  }

  lemma PrefixMembers(order: seq<string>, k: nat)
    requires k < |order|
    ensures forall f :: f in order[..k + 1] <==> f in order[..k] || f == order[k]
  {
    assert order[..k + 1] == order[..k] + [order[k]];
  }

  /** The prepared buffers of the files of `order`, in that order. */
  function Prepared(printers: map<string, string>, order: seq<string>, format: string -> Option<string>): (bufs: seq<string>)
    requires forall f :: f in order ==> f in printers
    ensures |bufs| == |order| && forall k :: 0 <= k < |order| ==> bufs[k] == Prepare(printers[order[k]], format)
  {
    seq(|order|, k requires 0 <= k < |order| => Prepare(printers[order[k]], format))
  }

  /** A diff that does not apply leaves the buffer alone; one that applies with `before == after` does too. */
  lemma ApplyDiffUnchanged(d: Diff, buf: string)
    requires !Contains(buf, d.before) || (d.before == d.after && d.before != [])
    ensures ApplyDiff(d, buf) == buf
  {
    if Contains(buf, d.before) {
      ReplaceSame(buf, d.before);
    }
  }

  /** A diff whose `before` is non-empty and absent from every stage leaves the output as it was. */
  lemma {:induction false} NoDiffApplies(ds: seq<Diff>, buf: string, n: nat)
    requires n <= |ds|
    requires forall i :: 0 <= i < n ==> !Contains(Stage(ds, buf, i), ds[i].before)
    ensures Stage(ds, buf, n) == buf
  {
    if n > 0 {
      NoDiffApplies(ds, buf, n - 1);
    }
  }

  // ----- routing a declaration -----

  /** A declaration without a Go package goes to package "other" (output.go:28-30). */
  function Defaulted(d: DeclInfo): (e: DeclInfo)
    ensures e.goPackage != ""
    ensures d.goPackage != "" ==> e == d
    ensures d.goPackage == "" ==> e == d.(goPackage := "other")
  {
    if d.goPackage == "" then d.(goPackage := "other") else d
  }

  /** The file name of a C file, without a trailing ".c" and then a trailing ".h", with ".go" added. */
  function GoName(cfile: string): (s: string)
    ensures HasSuffix(s, ".go")
  {
    var s := TrimSuffix(TrimSuffix(cfile, ".c"), ".h") + ".go";
    assert s[|s| - 3..] == ".go";
    s
  }

  /** The output file of a declaration of package `pkg` from C file `cfile` (output.go:31-33). */
  function GoFile(pkg: string, cfile: string): string {
    pkg + "/" + Base(GoName(cfile))
  }

  /** The last element of a path that ends in ".go" has no slash. */
  lemma BaseOfGoName(s: string)
    requires HasSuffix(s, ".go")
    ensures forall i :: 0 <= i < |Base(s)| ==> Base(s)[i] != '/'
  {
    assert s[|s| - 1] == 'o';
    assert TrimTrailingSlashes(s) == s;
    var k := LastIndex(s, '/');
    assert k < |s| - 1;
    assert s[k + 1..] != [];
  }

  /** The package of an output file is the part before its last slash. */
  lemma {:induction false} SplitAtLastSlash(p: string, b: string)
    requires forall i :: 0 <= i < |b| ==> b[i] != '/'
    ensures LastIndex(p + "/" + b, '/') == |p|
  {
    var s := p + "/" + b;
    assert s[|p|] == '/';
    forall j | |p| < j < |s|
      ensures s[j] != '/'
    {
      assert s[j] == b[j - |p| - 1];
    }
  }

  /** Two declarations routed to one file belong to one package, so a file's header names that package. */
  lemma GoFilePackage(p1: string, c1: string, p2: string, c2: string)
    requires GoFile(p1, c1) == GoFile(p2, c2)
    ensures p1 == p2
  {
    GoFileSplit(p1, c1);
    GoFileSplit(p2, c2);
  }

  /** The package of an output file is everything before its last slash. */
  lemma GoFileSplit(pkg: string, cfile: string)
    ensures LastIndex(GoFile(pkg, cfile), '/') == |pkg|
    ensures GoFile(pkg, cfile)[..|pkg|] == pkg
  {
    var b := Base(GoName(cfile));
    BaseOfGoName(GoName(cfile));
    SplitAtLastSlash(pkg, b);
    assert (pkg + "/" + b)[..|pkg|] == pkg;
  }

  /**
   * `dir/name.c` and `dir/name.h` of package `pkg` both go to `pkg/name.go`,
   * for a `name` not ending in ".h" (`TrimHeaderSource` covers the rest).
   */
  lemma GoFileOfSource(pkg: string, dir: string, name: string, ext: string)
    requires ext == ".c" || ext == ".h"
    requires forall i :: 0 <= i < |name| ==> name[i] != '/'
    requires !HasSuffix(name, ".h")
    ensures GoFile(pkg, dir + "/" + name + ext) == pkg + "/" + name + ".go"
  {
    var c := dir + "/" + name;
    TrimAppended(c, ext);
    if ext == ".c" {
      assert TrimSuffix(c + ext, ".c") == c;
      assert !HasSuffix(c, ".h") by {
        if |name| >= 2 {
          assert c[|c| - 2..] == name[|name| - 2..];
        } else if |name| == 1 {
          assert c[|c| - 2] == '/';
        } else {
          assert c[|c| - 1] == '/';
        }
      }
    } else {
      assert HasSuffix(c + ext, ".h");
      assert !HasSuffix(c + ext, ".c") by {
        assert (c + ext)[|c + ext| - 1] == 'h';
      }
    }
    assert GoName(c + ext) == c + ".go";
    var n := name + ".go";
    assert c + ".go" == dir + "/" + n;
    assert forall i :: 0 <= i < |n| ==> n[i] != '/';
    BaseAfterSlash(dir, n);
  }

  /**
   * Both suffixes are trimmed, one after the other: `dir/name.h.c` also goes
   * to `pkg/name.go`, the same file as `dir/name.c` and `dir/name.h` when
   * `name` does not end in ".h".
   */
  lemma TrimHeaderSource(pkg: string, dir: string, name: string)
    requires forall i :: 0 <= i < |name| ==> name[i] != '/'
    ensures GoFile(pkg, dir + "/" + name + ".h.c") == pkg + "/" + name + ".go"
    ensures !HasSuffix(name, ".h") ==>
              GoFile(pkg, dir + "/" + name + ".h.c") == GoFile(pkg, dir + "/" + name + ".c")
  {
    var c := dir + "/" + name;
    assert c + ".h.c" == (c + ".h") + ".c";
    TrimAppended(c + ".h", ".c");
    TrimAppended(c, ".h");
    assert GoName(c + ".h.c") == c + ".go";
    var n := name + ".go";
    assert c + ".go" == dir + "/" + n;
    assert forall i :: 0 <= i < |n| ==> n[i] != '/';
    BaseAfterSlash(dir, n);
    if !HasSuffix(name, ".h") {
      GoFileOfSource(pkg, dir, name, ".c");
    }
  }

  /** The package clause: "main" for a command `cmd/X`, else the last path element (output.go:39-42). */
  function PackageName(pkg: string): (name: string)
    ensures Count(pkg, '/') == 1 && HasPrefix(pkg, "cmd/") ==> name == "main"
    ensures !(Count(pkg, '/') == 1 && HasPrefix(pkg, "cmd/")) ==> name == Base(pkg)
  {
    if Count(pkg, '/') == 1 && HasPrefix(pkg, "cmd/") then "main" else Base(pkg)
  }

  /** Every command directory directly under `cmd/` is package main. */
  lemma CommandIsMain(x: string)
    requires forall i :: 0 <= i < |x| ==> x[i] != '/'
    ensures PackageName("cmd/" + x) == "main"
  {
    var p := "cmd/" + x;
    assert p[..4] == "cmd/";
    CountAppend("cmd/", x, '/');
    assert Count("cmd/", '/') == 1 by {
      assert "cmd/"[1..] == "md/";
      assert "md/"[1..] == "d/";
      assert "d/"[1..] == "/";
    }
  }

  /** A package two levels under `cmd/` keeps the name of its last element. */
  lemma NestedCommandPackage(dir: string, name: string)
    requires forall i :: 0 <= i < |dir| ==> dir[i] != '/'
    requires name != [] && forall i :: 0 <= i < |name| ==> name[i] != '/'
    ensures PackageName("cmd/" + dir + "/" + name) == name
  {
    var p := "cmd/" + dir + "/" + name;
    assert p == ("cmd/" + dir) + ("/" + name);
    CountAppend("cmd/" + dir, "/" + name, '/');
    CountAppend("cmd/", dir, '/');
    assert ("/" + name)[0] == '/' && ("/" + name)[1..] == name;
    assert Count("cmd/", '/') == 1 by {
      assert "cmd/"[1..] == "md/";
      assert "md/"[1..] == "d/";
      assert "d/"[1..] == "/";
    }
    BaseAfterSlash("cmd/" + dir, name);
  }

  /** The import lines a new printer starts with after its package clause (output.go:44-55). */
  function Imports(pkg: string): string {
    var obj := "import \"cmd/internal/obj\"\n";
    if pkg in {"cmd/new5g", "cmd/new6g", "cmd/new8g", "cmd/new9g"} then obj + "import \"cmd/internal/gc\"\n"
    else if pkg in {"cmd/new5l", "cmd/new6l", "cmd/new8l", "cmd/new9l"} then obj + "import \"cmd/internal/ld\"\n"
    else if pkg in {"cmd/internal/gc", "cmd/internal/ld", "cmd/internal/obj/arm", "cmd/internal/obj/ppc64",
                    "cmd/internal/obj/x86", "cmd/internal/obj/amd64"} then obj
    else ""
  }

  /** What a new printer holds before its first declaration (output.go:37-55). */
  function Header(pkg: string): string {
    "package " + PackageName(pkg) + "\n\n" + Imports(pkg)
  }

  /** `delete[k]` of a Go `map[string]bool`: false for a missing key. */
  predicate Flag(delete: map<string, bool>, k: string) {
    k in delete && delete[k]
  }

  /**
   * The replacement text for a declaration, if any (output.go:60-67): the
   * exact name is looked up first and the lower-case name only when the
   * exact name is absent; a delete entry under either name wins with "".
   */
  function Replacement(replace: map<string, string>, delete: map<string, bool>, name: string): (r: Option<string>)
    ensures Flag(delete, name) || Flag(delete, ToLower(name)) ==> r == Some("")
    ensures !Flag(delete, name) && !Flag(delete, ToLower(name)) ==>
      (name in replace ==> r == Some(replace[name]))
      && (name !in replace && ToLower(name) in replace ==> r == Some(replace[ToLower(name)]))
      && (name !in replace && ToLower(name) !in replace ==> r == None)
  {
    var found :=
      if name in replace then Some(replace[name])
      else if ToLower(name) in replace then Some(replace[ToLower(name)])
      else None;
    if Flag(delete, name) || Flag(delete, ToLower(name)) then Some("") else found
  }

  /** For a name already in lower case the fallback key is the name itself. */
  lemma LowerNameLookup(replace: map<string, string>, delete: map<string, bool>, name: string)
    requires forall i :: 0 <= i < |name| ==> !('A' <= name[i] <= 'Z')
    requires !Flag(delete, name)
    ensures Replacement(replace, delete, name) == if name in replace then Some(replace[name]) else None
  {
    ToLowerKeepsLower(name);
  }

  /** Names differing only in case share the lower-case entries of `replace` and `delete`. */
  lemma CaseFoldedLookup(replace: map<string, string>, delete: map<string, bool>, a: string, b: string)
    requires ToLower(a) == ToLower(b) && a !in replace && b !in replace && !Flag(delete, a) && !Flag(delete, b)
    ensures Replacement(replace, delete, a) == Replacement(replace, delete, b)
  {
  }

  /** The text printed for a declaration: the replacement between the comments, or the declaration itself (output.go:68-75). */
  function Emit(d: DeclInfo, repl: Option<string>): (text: string)
    ensures repl.Some? ==> text == d.comments.before + repl.value + d.comments.suffix + d.comments.after
    ensures repl.None? ==> text == d.rendered
  {
    match repl
    case Some(r) => d.comments.before + r + d.comments.suffix + d.comments.after
    case None => d.rendered
  }

  /** Printed text followed by two newlines when it is not empty (output.go:76-79). */
  function Chunk(text: string): (c: string)
    ensures text == [] <==> c == []
    ensures text != [] ==> c == text + "\n\n"
  {
    if |text| > 0 then text + "\n\n" else text
  }

  /** Appending text and then two newlines when the buffer grew appends the text's chunk. */
  lemma AppendChunk(start: string, text: string)
    ensures (if |start + text| > |start| then (start + text) + "\n\n" else start + text) == start + Chunk(text)
  {
    if text != [] {
      assert (start + text) + "\n\n" == start + (text + "\n\n");
    }
  }

  /** What one declaration contributes: its output file, the header of a new printer there, its C file and its text. */
  datatype Entry = Entry(file: string, header: string, cfile: string, piece: string)

  /** The output file of a declaration. */
  function Target(d: DeclInfo): string {
    GoFile(Defaulted(d).goPackage, d.cfile)
  }

  /** What a declaration whose package is set appends to its printer. */
  function Piece(replace: map<string, string>, delete: map<string, bool>, e: DeclInfo): string {
    Chunk(Emit(e, Replacement(replace, delete, e.name)))
  }

  /** The contribution of a declaration after its package is defaulted. */
  function EntryOf(replace: map<string, string>, delete: map<string, bool>, d: DeclInfo): Entry {
    Entry(Target(d), Header(Defaulted(d).goPackage), d.cfile, Piece(replace, delete, Defaulted(d)))
  }

  /** `f` applied to each element of `xs`, in order. */
  function Map<A, B>(f: A -> B, xs: seq<A>): (ys: seq<B>)
    ensures |ys| == |xs|
    decreases |xs|
  {
    if xs == [] then [] else Map(f, xs[..|xs| - 1]) + [f(xs[|xs| - 1])]
  }

  lemma {:induction false} MapAt<A, B>(f: A -> B, xs: seq<A>, i: nat)
    requires i < |xs|
    ensures Map(f, xs)[i] == f(xs[i])
    decreases |xs|
  {
    if i < |xs| - 1 {
      var init := xs[..|xs| - 1];
      assert init[i] == xs[i];
      MapAt(f, init, i);
    }
  }

  /** The contributions of `ds`, in order. */
  function Entries(replace: map<string, string>, delete: map<string, bool>, ds: seq<DeclInfo>): (es: seq<Entry>)
    ensures |es| == |ds|
  {
    Map(d => EntryOf(replace, delete, d), ds)
  }

  lemma EntryAt(replace: map<string, string>, delete: map<string, bool>, ds: seq<DeclInfo>, i: nat)
    requires i < |ds|
    ensures Entries(replace, delete, ds)[i] == EntryOf(replace, delete, ds[i])
  {
    MapAt(d => EntryOf(replace, delete, d), ds, i);
  }

  /** The file, header and C file of contribution `i`, without its text. */
  lemma EntryFileAt(replace: map<string, string>, delete: map<string, bool>, ds: seq<DeclInfo>, i: nat)
    requires i < |ds|
    ensures Entries(replace, delete, ds)[i].file == Target(ds[i])
    ensures Entries(replace, delete, ds)[i].header == Header(Defaulted(ds[i]).goPackage)
    ensures Entries(replace, delete, ds)[i].cfile == ds[i].cfile
  {
    EntryAt(replace, delete, ds, i);
  }

  /** The printers' buffers and the `cfiles` map, keyed by output file. */
  datatype Files = Files(printers: map<string, string>, cfiles: map<string, string>)

  /**
   * One iteration of the loop of output.go:27-80: the printer of the file
   * is looked up or created with its header, the text is appended to it,
   * and the file's C file is recorded.
   */
  function Step(f: Files, e: Entry): Files {
    var buf := if e.file in f.printers then f.printers[e.file] else e.header;
    Files(f.printers[e.file := buf + e.piece], f.cfiles[e.file := e.cfile])
  }

  /** The loop over a sequence of contributions. */
  function Fold(es: seq<Entry>): Files
    decreases |es|
  {
    if es == [] then Files(map[], map[]) else Step(Fold(es[..|es| - 1]), es[|es| - 1])
  }

  /** The loop over all declarations. */
  function Route(replace: map<string, string>, delete: map<string, bool>, ds: seq<DeclInfo>): Files {
    Fold(Entries(replace, delete, ds))
  }

  /** The texts of the contributions to file `g`, in order. */
  function Body(es: seq<Entry>, g: string): string
    decreases |es|
  {
    if es == [] then ""
    else Body(es[..|es| - 1], g) + (if es[|es| - 1].file == g then es[|es| - 1].piece else "")
  }

  /** Contributions to one file agree on its header. */
  predicate HeadersAgree(es: seq<Entry>) {
    forall i, j :: 0 <= i < |es| && 0 <= j < |es| && es[i].file == es[j].file ==> es[i].header == es[j].header
  }

  /**
   * The body of the loop of output.go:31-79 for a declaration whose
   * package is set: find or create the printer of its file, print the
   * declaration or its replacement, and end it with a blank line when
   * anything was printed.
   */
  method AddDecl(replace: map<string, string>, delete: map<string, bool>, printers: map<string, string>,
                 cfiles: map<string, string>, decl: DeclInfo, ghost ds: seq<DeclInfo>, ghost i: nat)
    returns (printers': map<string, string>, cfiles': map<string, string>)
    requires i < |ds| && decl == Defaulted(ds[i])
    ensures Files(printers', cfiles') == Step(Files(printers, cfiles), Entries(replace, delete, ds)[i])
  {
    EntryAt(replace, delete, ds, i);
    var gofile := GoFile(decl.goPackage, decl.cfile);
    cfiles' := cfiles[gofile := decl.cfile];
    var buf;
    if gofile in printers {
      buf := printers[gofile];
    } else {
      buf := Header(decl.goPackage);
    }
    ghost var start := buf;
    var off := |buf|;
    var text := Emit(decl, Replacement(replace, delete, decl.name));
    buf := buf + text;
    if |buf| > off {
      buf := buf + "\n\n";
    }
    AppendChunk(start, text);
    printers' := printers[gofile := buf];
  }

  /** Declarations before `i` have their default package, the rest are as in `ds`. */
  predicate DefaultedUpTo(decls: array<DeclInfo>, ds: seq<DeclInfo>, i: nat)
    reads decls
  {
    decls.Length == |ds| && i <= |ds|
    && (forall j :: 0 <= j < i ==> decls[j] == Defaulted(ds[j]))
    && (forall j :: i <= j < |ds| ==> decls[j] == ds[j])
  }

  /** Declaration `i` gets package "other" in place when it has none (output.go:28-30). */
  method SetDefault(decls: array<DeclInfo>, i: nat, ghost ds: seq<DeclInfo>) returns (decl: DeclInfo)
    requires i < decls.Length && DefaultedUpTo(decls, ds, i)
    modifies decls
    ensures decl == Defaulted(ds[i]) && DefaultedUpTo(decls, ds, i + 1)
  {
    decl := decls[i];
    if decl.goPackage == "" {
      decl := decl.(goPackage := "other");
      decls[i] := decl;
    }
  }

  /**
   * The loop of output.go:27-80: the declarations get their default
   * package in place, and the printers and `cfiles` maps end as `Route`
   * says.
   */
  method RouteDecls(cfg: Config, decls: array<DeclInfo>) returns (printers: map<string, string>, cfiles: map<string, string>)
    modifies decls
    ensures forall i :: 0 <= i < decls.Length ==> decls[i] == Defaulted(old(decls[i]))
    ensures Files(printers, cfiles) == Route(cfg.replace, cfg.delete, old(decls[..]))
  {
    ghost var ds := decls[..];
    ghost var es := Entries(cfg.replace, cfg.delete, ds);
    printers, cfiles := map[], map[];
    for i := 0 to decls.Length
      invariant DefaultedUpTo(decls, ds, i)
      invariant Files(printers, cfiles) == Fold(es[..i])
    {
      var decl := SetDefault(decls, i, ds);
      FoldNext(es, i);
      printers, cfiles := AddDecl(cfg.replace, cfg.delete, printers, cfiles, decl, ds, i);
    }
    assert es[..decls.Length] == es;
  }

  lemma FoldNext(es: seq<Entry>, i: nat)
    requires i < |es|
    ensures Fold(es[..i + 1]) == Step(Fold(es[..i]), es[i])
  {
    assert es[..i + 1][..i] == es[..i];
  }

  // ----- what the printers hold -----

  /** There is a printer and a `cfiles` entry exactly for the files some contribution goes to. */
  lemma {:induction false} FoldKeys(es: seq<Entry>, g: string)
    ensures g in Fold(es).printers <==> exists j :: 0 <= j < |es| && es[j].file == g
    ensures g in Fold(es).cfiles <==> g in Fold(es).printers
    decreases |es|
  {
    if es != [] {
      var init := es[..|es| - 1];
      FoldKeys(init, g);
      if exists j :: 0 <= j < |init| && init[j].file == g {
        var j :| 0 <= j < |init| && init[j].file == g;
        assert es[j] == init[j];
      }
      if exists j :: 0 <= j < |es| && es[j].file == g {
        var j :| 0 <= j < |es| && es[j].file == g;
        if j < |init| {
          assert init[j] == es[j];
        }
      }
    }
  }

  /** No contribution goes to `g`, so nothing was appended for `g`. */
  lemma {:induction false} BodyEmpty(es: seq<Entry>, g: string)
    requires forall j :: 0 <= j < |es| ==> es[j].file != g
    ensures Body(es, g) == ""
    decreases |es|
  {
    if es != [] {
      BodyEmpty(es[..|es| - 1], g);
    }
  }

  /** Every contribution to the file of contribution `j` carries its header. */
  predicate SameHeader(es: seq<Entry>, j: nat)
    requires j < |es|
  {
    forall i :: 0 <= i < |es| && es[i].file == es[j].file ==> es[i].header == es[j].header
  }

  /**
   * A printer is created once, by the first contribution to its file: its
   * buffer is the file's header followed by the text of every contribution
   * to it, in order.
   */
  lemma {:induction false} FoldBuffer(es: seq<Entry>, j: nat)
    requires j < |es| && SameHeader(es, j)
    ensures es[j].file in Fold(es).printers
    ensures Fold(es).printers[es[j].file] == es[j].header + Body(es, es[j].file)
    decreases |es|
  {
    var g, h := es[j].file, es[j].header;
    var init, e := es[..|es| - 1], es[|es| - 1];
    if j < |init| {
      assert init[j] == es[j];
    }
    if exists k :: 0 <= k < |init| && init[k].file == g {
      var k :| 0 <= k < |init| && init[k].file == g;
      SameHeaderInit(es, j, k);
      FoldBuffer(init, k);
    } else {
      FoldKeys(init, g);
      BodyEmpty(init, g);
    }
    StepBuffer(Fold(init), e, g, h, Body(init, g));
  }

  /** A contribution before the last one that shares a file with `j` has its header. */
  lemma SameHeaderInit(es: seq<Entry>, j: nat, k: nat)
    requires j < |es| && SameHeader(es, j)
    requires k < |es| - 1 && es[k].file == es[j].file
    ensures SameHeader(es[..|es| - 1], k)
  {
    var init := es[..|es| - 1];
    assert init[k] == es[k];
    forall i | 0 <= i < |init| && init[i].file == init[k].file
      ensures init[i].header == init[k].header
    {
      assert init[i] == es[i];
    }
  }

  /** One step appends the contribution's text to the buffer of its file, created with its header. */
  lemma StepBuffer(f: Files, e: Entry, g: string, h: string, body: string)
    requires g in f.printers ==> f.printers[g] == h + body
    requires g !in f.printers ==> body == [] && e.file == g && e.header == h
    ensures g in Step(f, e).printers
    ensures Step(f, e).printers[g] == h + (body + (if e.file == g then e.piece else ""))
  {
    if e.file == g {
      assert (h + body) + e.piece == h + (body + e.piece);
    } else {
      assert body + "" == body;
    }
  }

  /** `cfiles[g]` is the C file of the last contribution to `g` (output.go:34). */
  lemma {:induction false} FoldCFile(es: seq<Entry>, j: nat)
    requires j < |es|
    requires forall k :: j < k < |es| ==> es[k].file != es[j].file
    ensures es[j].file in Fold(es).cfiles && Fold(es).cfiles[es[j].file] == es[j].cfile
    decreases |es|
  {
    if j < |es| - 1 {
      var init := es[..|es| - 1];
      assert init[j] == es[j];
      FoldCFile(init, j);
    }
  }

  /** Declarations routed to one file have one package, hence one header. */
  lemma EntriesAgree(replace: map<string, string>, delete: map<string, bool>, ds: seq<DeclInfo>)
    ensures HeadersAgree(Entries(replace, delete, ds))
  {
    var es := Entries(replace, delete, ds);
    forall i, j | 0 <= i < |es| && 0 <= j < |es| && es[i].file == es[j].file
      ensures es[i].header == es[j].header
    {
      EntryFileAt(replace, delete, ds, i);
      EntryFileAt(replace, delete, ds, j);
      GoFilePackage(Defaulted(ds[i]).goPackage, ds[i].cfile, Defaulted(ds[j]).goPackage, ds[j].cfile);
    }
  }

  /**
   * The file of declaration `j` holds the header of its package followed by
   * the text of every declaration routed to the same file, in order.
   */
  lemma RouteBuffer(replace: map<string, string>, delete: map<string, bool>, ds: seq<DeclInfo>, j: nat)
    requires j < |ds|
    ensures var e := Defaulted(ds[j]);
            var g := GoFile(e.goPackage, e.cfile);
            g in Route(replace, delete, ds).printers &&
            Route(replace, delete, ds).printers[g] == Header(e.goPackage) + Body(Entries(replace, delete, ds), g)
  {
    EntriesAgree(replace, delete, ds);
    EntryAt(replace, delete, ds, j);
    assert SameHeader(Entries(replace, delete, ds), j);
    FoldBuffer(Entries(replace, delete, ds), j);
  }

  /** There is a printer exactly for the files some declaration is routed to. */
  lemma RouteFiles(replace: map<string, string>, delete: map<string, bool>, ds: seq<DeclInfo>, g: string)
    ensures g in Route(replace, delete, ds).printers <==> exists j :: 0 <= j < |ds| && Target(ds[j]) == g
    ensures g in Route(replace, delete, ds).cfiles <==> g in Route(replace, delete, ds).printers
  {
    var es := Entries(replace, delete, ds);
    FoldKeys(es, g);
    if exists j :: 0 <= j < |es| && es[j].file == g {
      var j :| 0 <= j < |es| && es[j].file == g;
      EntryFileAt(replace, delete, ds, j);
    }
    if exists j :: 0 <= j < |ds| && Target(ds[j]) == g {
      var j :| 0 <= j < |ds| && Target(ds[j]) == g;
      EntryFileAt(replace, delete, ds, j);
    }
  }

  /** `cfiles` maps a file to the C file of the last declaration routed to it (output.go:34). */
  lemma RouteCFile(replace: map<string, string>, delete: map<string, bool>, ds: seq<DeclInfo>, j: nat)
    requires j < |ds|
    requires forall k :: j < k < |ds| ==> Target(ds[k]) != Target(ds[j])
    ensures Target(ds[j]) in Route(replace, delete, ds).cfiles
    ensures Route(replace, delete, ds).cfiles[Target(ds[j])] == ds[j].cfile
  {
    var es := Entries(replace, delete, ds);
    EntryFileAt(replace, delete, ds, j);
    forall k | j < k < |es|
      ensures es[k].file != es[j].file
    {
      EntryFileAt(replace, delete, ds, k);
    }
    FoldCFile(es, j);
  }

  /**
   * `writeGoFiles` (output.go:24-114) without the file system: the
   * declarations are routed, then every printer, taken in the map order
   * `order`, is prepared and passed through the diffs. The text written
   * for a file depends only on its printer.
   */
  method WriteGoFiles(cfg: Config, decls: array<DeclInfo>, order: seq<string>, format: string -> Option<string>)
    returns (written: map<string, string>)
    requires forall f :: f in Route(cfg.replace, cfg.delete, decls[..]).printers <==> f in order
    requires forall a, b :: 0 <= a < b < |order| ==> order[a] != order[b]
    modifies decls, cfg.diffs
    ensures forall i :: 0 <= i < decls.Length ==> decls[i] == Defaulted(old(decls[i]))
    ensures var printers := Route(cfg.replace, cfg.delete, old(decls[..])).printers;
            written.Keys == printers.Keys &&
            forall f :: f in written ==> written[f] == Stage(old(cfg.diffs[..]), Prepare(printers[f], format), cfg.diffs.Length)
    ensures var bufs := Prepared(Route(cfg.replace, cfg.delete, old(decls[..])).printers, order, format);
            forall i :: 0 <= i < cfg.diffs.Length ==>
              cfg.diffs[i] == old(cfg.diffs[i]).(used := old(cfg.diffs[i]).used + Hits(old(cfg.diffs[..]), bufs, i))
  {
    var printers, cfiles := RouteDecls(cfg, decls);
    written := cfg.WriteFiles(printers, order, format);
  }
}
