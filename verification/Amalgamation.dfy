/** The amalgamation: files are inlined at their first include, and the source files are split into
    parts of about the same size. */
module Amalgamation {
  import opened Common

  /** A file as the inlining sees it: stretches of text between include statements. */
  datatype Segment = Text(text: string) | Include(path: string)

  type Files = map<string, seq<Segment>>

  /** A stretch of text in the output, by file and position. */
  datatype Token = Own(file: string, index: nat)

  /** The stretches of text of these files. */
  function TokensOf(files: Files, paths: set<string>): set<Token> {
    set g, k | g in paths && g in files && 0 <= k < |files[g]| && files[g][k].Text? :: Own(g, k)
  }

  function Elements(out: seq<Token>): set<Token> {
    set t | t in out
  }

  /** Each of the tokens once, and nothing else. */
  predicate Exactly(out: seq<Token>, tokens: set<Token>) {
    Elements(out) == tokens && forall i, j :: 0 <= i < j < |out| ==> out[i] != out[j]
  }

  /** Text that follows an include statement follows the whole text of the included file, which is in `out` or
      was written before. */
  predicate InOrder(files: Files, skip: string -> bool, out: seq<Token>, before: set<string>) {
    forall p :: 0 <= p < |out| ==> Follows(files, skip, out[p], out[..p], before)
  }

  predicate Follows(files: Files, skip: string -> bool, token: Token, earlier: seq<Token>, before: set<string>) {
    token.file in files && token.index <= |files[token.file]| &&
    forall j :: 0 <= j < token.index && files[token.file][j].Include? ==>
      IsWritten(files, skip, files[token.file][j].path, earlier, before)
  }

  predicate IsWritten(files: Files, skip: string -> bool, path: string, out: seq<Token>, before: set<string>) {
    skip(path) || path in before || TokensOf(files, {path}) <= Elements(out)
  }

  /** No file includes itself, directly or not: includes lead down. */
  ghost predicate Acyclic(files: Files, rank: string -> nat) {
    forall g, j :: g in files && 0 <= j < |files[g]| && files[g][j].Include? ==> rank(files[g][j].path) < rank(g)
  }

  /** Every include is found, and no file has an include statement twice. */
  predicate Sound(files: Files) {
    forall g :: g in files ==> SoundIncludes(files, files[g])
  }

  predicate SoundIncludes(files: Files, segments: seq<Segment>) {
    (forall j :: 0 <= j < |segments| && segments[j].Include? ==> segments[j].path in files) &&
    forall i, j :: 0 <= i < j < |segments| && segments[i].Include? ==> segments[i] != segments[j]
  }

  lemma InOrderAppend(files: Files, skip: string -> bool, a: seq<Token>, b: seq<Token>, before: set<string>, done: set<string>)
    requires InOrder(files, skip, a, before) && InOrder(files, skip, b, before + done) && TokensOf(files, done) <= Elements(a)
    ensures InOrder(files, skip, a + b, before)
  {
    forall p | 0 <= p < |a + b|
      ensures Follows(files, skip, (a + b)[p], (a + b)[..p], before)
    {
      if p < |a| {
        assert (a + b)[..p] == a[..p];
      } else {
        assert (a + b)[..p] == a + b[..p - |a|];
        assert Follows(files, skip, b[p - |a|], b[..p - |a|], before + done);
        FollowsLater(files, skip, b[p - |a|], a, b[..p - |a|], before, done);
      }
    }
  }

  lemma FollowsLater(files: Files, skip: string -> bool, token: Token, a: seq<Token>, b: seq<Token>, before: set<string>, done: set<string>)
    requires Follows(files, skip, token, b, before + done) && TokensOf(files, done) <= Elements(a)
    ensures Follows(files, skip, token, a + b, before)
  {
    forall j | 0 <= j < token.index && files[token.file][j].Include?
      ensures IsWritten(files, skip, files[token.file][j].path, a + b, before)
    {
      var path := files[token.file][j].path;
      assert IsWritten(files, skip, path, b, before + done);
      assert Elements(a) <= Elements(a + b) && Elements(b) <= Elements(a + b);
      if path in done {
        assert TokensOf(files, {path}) <= TokensOf(files, done);
      }
    }
  }

  lemma ExactlyAppend(a: seq<Token>, s: set<Token>, b: seq<Token>, t: set<Token>)
    requires Exactly(a, s) && Exactly(b, t) && s !! t
    ensures Exactly(a + b, s + t)
  {
    assert Elements(a + b) == Elements(a) + Elements(b);
    forall i, j | 0 <= i < j < |a + b|
      ensures (a + b)[i] != (a + b)[j]
    {
      if i < |a| <= j {
        assert a[i] in Elements(a) && b[j - |a|] in Elements(b);
      }
    }
  }

  /** The stretches of text among the first `n` segments. */
  function OwnTokens(files: Files, path: string, n: nat): set<Token>
    requires path in files && n <= |files[path]|
  {
    set k | 0 <= k < n && files[path][k].Text? :: Own(path, k)
  }

  /** The files being written are above this one. */
  ghost predicate Below(files: Files, rank: string -> nat, path: string, pending: set<string>) {
    Acyclic(files, rank) && forall a :: a in pending ==> rank(path) < rank(a)
  }

  /** All files an emitted file includes are written or excluded. */
  predicate Closed(files: Files, skip: string -> bool, added: set<string>, written: set<string>) {
    forall g, j :: g in added && g in files && 0 <= j < |files[g]| && files[g][j].Include? ==>
      skip(files[g][j].path) || files[g][j].path in written
  }

  lemma IsWrittenLater(files: Files, skip: string -> bool, path: string, a: seq<Token>, b: seq<Token>, before: set<string>)
    requires IsWritten(files, skip, path, a, before)
    ensures IsWritten(files, skip, path, a + b, before)
  {
    assert Elements(a) <= Elements(a + b);
  }

  lemma TokensSplit(files: Files, a: set<string>, b: set<string>)
    ensures TokensOf(files, a + b) == TokensOf(files, a) + TokensOf(files, b)
    ensures a !! b ==> TokensOf(files, a) !! TokensOf(files, b)
  {
  }

  class Amalgamator {
    const files: Files
    /** Files of the amalgamation itself, and files that are never written. */
    const alwaysExcluded: string -> bool
    const excluded: string -> bool
    var written: set<string>

    constructor (files: Files, alwaysExcluded: string -> bool, excluded: string -> bool)
      ensures this.files == files && this.alwaysExcluded == alwaysExcluded && this.excluded == excluded && written == {}
    {
      this.files, this.alwaysExcluded, this.excluded, written := files, alwaysExcluded, excluded, {};
    }

    /** Not written when included. */
    function Skip(): string -> bool {
      (path: string) => alwaysExcluded(path) || excluded(path)
    }

    predicate NeedToWriteFile(path: string, ignoreExcluded: bool)
      reads this
    {
      !alwaysExcluded(path) && !(excluded(path) && !ignoreExcluded) && path !in written
    }

    /** What one call adds: each file it adds is written once, as a whole. */
    ghost predicate Adds(out: seq<Token>, before: set<string>)
      reads this
    {
      before <= written && Exactly(out, TokensOf(files, written - before)) && Closed(files, Skip(), written - before, written)
    }

    /** Writes a file with everything it includes and that is not written yet, in place of the include statements.
        `pending` are the files being written. */
    method WriteFile(path: string, ignoreExcluded: bool, ghost rank: string -> nat, ghost pending: set<string>)
      returns (ok: bool, out: seq<Token>)
      requires written <= files.Keys && pending <= written
      modifies this
      ensures written <= files.Keys && old(written) <= written
      ensures Sound(files) && path in files ==> ok
      ensures ok ==> Adds(out, old(written))
      ensures ok && old(NeedToWriteFile(path, ignoreExcluded)) ==> path in written
      ensures ok && !old(NeedToWriteFile(path, ignoreExcluded)) ==> out == [] && written == old(written)
      ensures ok && !alwaysExcluded(path) && (excluded(path) ==> ignoreExcluded) ==> path in written
      ensures forall g :: g in written - old(written) ==> !alwaysExcluded(g) && (excluded(g) ==> g == path && ignoreExcluded)
      ensures ok && Below(files, rank, path, pending) ==>
                InOrder(files, Skip(), out, old(written) - pending) &&
                forall g :: g in written - old(written) ==> rank(g) <= rank(path)
      decreases files.Keys - written
    {
      out := [];
      if !NeedToWriteFile(path, ignoreExcluded) {
        assert TokensOf(files, written - written) == {};
        return true, [];
      }
      if path !in files || !SoundIncludes(files, files[path]) {
        return false, [];
      }
      written := written + {path};
      ghost var start := old(written);
      StartOfFile(files, Skip(), path, start);
      for i := 0 to |files[path]|
        invariant start + {path} <= written <= files.Keys
        invariant forall g :: g in written - start ==> !alwaysExcluded(g) && (excluded(g) ==> g == path && ignoreExcluded)
        invariant Partial(files, Skip(), path, i, out, start, written)
        invariant Below(files, rank, path, pending) ==>
                    PartialOrder(files, Skip(), rank, path, i, out, start - pending, written - start)
      {
        match files[path][i] {
          case Text(_) =>
            AddText(files, Skip(), path, i, out, start, written);
            if Below(files, rank, path, pending) {
              AddTextInOrder(files, Skip(), rank, path, i, out, start - pending, written - start);
            }
            out := out + [Own(path, i)];
          case Include(inner) =>
            ghost var before := written;
            var more, text := WriteFile(inner, false, rank, pending + {path});
            if !more {
              return false, [];
            }
            AddInclude(files, Skip(), path, i, out, start, before, text, written);
            if Below(files, rank, path, pending) {
              AddIncludeInOrder(files, Skip(), rank, path, i, out, start, before, text, written, pending);
            }
            out := out + text;
        }
      }
      EndOfFile(files, Skip(), path, out, start, written);
      return true, out;
    }

    /** Writes the files of a list one behind the other. */
    method WriteFiles(paths: seq<string>, ghost rank: string -> nat) returns (ok: bool, out: seq<Token>)
      requires written <= files.Keys
      modifies this
      ensures Sound(files) && (forall p :: p in paths ==> p in files) ==> ok
      ensures ok ==> Adds(out, old(written)) && forall p :: p in paths ==> Skip()(p) || p in written
      ensures forall g :: g in written - old(written) ==> !alwaysExcluded(g) && !excluded(g)
      ensures ok && Acyclic(files, rank) ==> InOrder(files, Skip(), out, old(written))
    {
      out := [];
      assert TokensOf(files, written - written) == {};
      for i := 0 to |paths|
        invariant old(written) <= written <= files.Keys && Adds(out, old(written))
        invariant forall g :: g in written - old(written) ==> !alwaysExcluded(g) && !excluded(g)
        invariant forall p :: p in paths[..i] ==> Skip()(p) || p in written
        invariant Acyclic(files, rank) ==> InOrder(files, Skip(), out, old(written))
      {
        ghost var before := written;
        var more, text := WriteFile(paths[i], false, rank, {});
        if !more {
          return false, [];
        }
        assert paths[..i + 1] == paths[..i] + [paths[i]];
        ghost var old_, new_ := before - old(written), written - before;
        assert written - old(written) == old_ + new_;
        TokensSplit(files, old_, new_);
        ExactlyAppend(out, TokensOf(files, old_), text, TokensOf(files, new_));
        if Acyclic(files, rank) {
          assert before - {} == old(written) + old_;
          InOrderAppend(files, Skip(), out, text, old(written), old_);
        }
        out := out + text;
      }
      return true, out;
    }
  }

  /** The state in the middle of a file: the files added so far are written as a whole, this one up to segment `i`. */
  ghost predicate Partial(files: Files, skip: string -> bool, path: string, i: nat, out: seq<Token>, start: set<string>,
                          written: set<string>)
    requires path in files && i <= |files[path]|
  {
    var added := written - start - {path};
    Exactly(out, TokensOf(files, added) + OwnTokens(files, path, i)) && Closed(files, skip, added, written) &&
    forall j :: 0 <= j < i && files[path][j].Include? ==> skip(files[path][j].path) || files[path][j].path in written
  }

  ghost predicate PartialOrder(files: Files, skip: string -> bool, rank: string -> nat, path: string, i: nat, out: seq<Token>,
                               before: set<string>, added: set<string>)
    requires path in files && i <= |files[path]|
  {
    InOrder(files, skip, out, before) && (forall g :: g in added ==> rank(g) <= rank(path)) &&
    forall j :: 0 <= j < i && files[path][j].Include? ==> IsWritten(files, skip, files[path][j].path, out, before)
  }

  lemma StartOfFile(files: Files, skip: string -> bool, path: string, start: set<string>)
    requires path in files
    ensures Partial(files, skip, path, 0, [], start, start + {path})
  {
    assert start + {path} - start - {path} == {};
  }

  lemma AddText(files: Files, skip: string -> bool, path: string, i: nat, out: seq<Token>, start: set<string>, written: set<string>)
    requires path in files && i < |files[path]| && files[path][i].Text?
    requires Partial(files, skip, path, i, out, start, written)
    ensures Partial(files, skip, path, i + 1, out + [Own(path, i)], start, written)
  {
    var added := written - start - {path};
    assert Exactly([Own(path, i)], {Own(path, i)});
    ExactlyAppend(out, TokensOf(files, added) + OwnTokens(files, path, i), [Own(path, i)], {Own(path, i)});
    assert OwnTokens(files, path, i + 1) == OwnTokens(files, path, i) + {Own(path, i)};
  }

  lemma AddTextInOrder(files: Files, skip: string -> bool, rank: string -> nat, path: string, i: nat, out: seq<Token>,
                       before: set<string>, added: set<string>)
    requires path in files && i < |files[path]| && files[path][i].Text?
    requires PartialOrder(files, skip, rank, path, i, out, before, added)
    ensures PartialOrder(files, skip, rank, path, i + 1, out + [Own(path, i)], before, added)
  {
    var more := out + [Own(path, i)];
    forall p | 0 <= p < |more|
      ensures Follows(files, skip, more[p], more[..p], before)
    {
      assert more[..p] == if p < |out| then out[..p] else out;
    }
    forall j | 0 <= j < i + 1 && files[path][j].Include?
      ensures IsWritten(files, skip, files[path][j].path, more, before)
    {
      IsWrittenLater(files, skip, files[path][j].path, out, [Own(path, i)], before);
    }
  }

  lemma AddInclude(files: Files, skip: string -> bool, path: string, i: nat, out: seq<Token>, start: set<string>,
                   before: set<string>, text: seq<Token>, written: set<string>)
    requires path in files && i < |files[path]| && files[path][i].Include? && start + {path} <= before <= written && path !in start
    requires Partial(files, skip, path, i, out, start, before)
    requires Exactly(text, TokensOf(files, written - before)) && Closed(files, skip, written - before, written)
    requires skip(files[path][i].path) || files[path][i].path in written
    ensures Partial(files, skip, path, i + 1, out + text, start, written)
  {
    var added, new_ := before - start - {path}, written - before;
    assert written - start - {path} == added + new_;
    TokensSplit(files, added, new_);
    ExactlyAppend(out, TokensOf(files, added) + OwnTokens(files, path, i), text, TokensOf(files, new_));
    assert OwnTokens(files, path, i + 1) == OwnTokens(files, path, i);
  }

  lemma AddIncludeInOrder(files: Files, skip: string -> bool, rank: string -> nat, path: string, i: nat, out: seq<Token>,
                          start: set<string>, before: set<string>, text: seq<Token>, written: set<string>, pending: set<string>)
    requires path in files && i < |files[path]| && files[path][i].Include? && start + {path} <= before <= written && path !in start
    requires pending <= start && Below(files, rank, path, pending)
    requires Partial(files, skip, path, i, out, start, before)
    requires Exactly(text, TokensOf(files, written - before))
    requires PartialOrder(files, skip, rank, path, i, out, start - pending, before - start)
    requires InOrder(files, skip, text, before - (pending + {path}))
    requires forall g :: g in written - before ==> rank(g) <= rank(files[path][i].path)
    requires skip(files[path][i].path) || files[path][i].path in written
    ensures PartialOrder(files, skip, rank, path, i + 1, out + text, start - pending, written - start)
  {
    var done, inner := before - start - {path}, files[path][i].path;
    assert before - (pending + {path}) == (start - pending) + done;
    InOrderAppend(files, skip, out, text, start - pending, done);
    forall j | 0 <= j < i && files[path][j].Include?
      ensures IsWritten(files, skip, files[path][j].path, out + text, start - pending)
    {
      IsWrittenLater(files, skip, files[path][j].path, out, text, start - pending);
    }
    assert rank(inner) < rank(path) && inner !in pending + {path};
    if inner in done {
      assert TokensOf(files, {inner}) <= TokensOf(files, done);
      IsWrittenLater(files, skip, inner, out, text, start - pending);
    } else if inner in written - before {
      assert TokensOf(files, {inner}) <= TokensOf(files, written - before) <= Elements(out + text);
    }
  }

  lemma EndOfFile(files: Files, skip: string -> bool, path: string, out: seq<Token>, start: set<string>, written: set<string>)
    requires path in files && path !in start && start + {path} <= written
    requires Partial(files, skip, path, |files[path]|, out, start, written)
    ensures Exactly(out, TokensOf(files, written - start)) && Closed(files, skip, written - start, written)
  {
    var added := written - start - {path};
    assert written - start == added + {path};
    TokensSplit(files, added, {path});
    assert TokensOf(files, {path}) == OwnTokens(files, path, |files[path]|);
  }

  // ----- splitting -----------------------------------------------------------------------------------------

  function TotalBytes(files: seq<string>): nat {
    if files == [] then 0 else TotalBytes(files[..|files| - 1]) + |files[|files| - 1]|
  }

  lemma {:induction false} TotalAppend(a: seq<string>, b: seq<string>)
    ensures TotalBytes(a + b) == TotalBytes(a) + TotalBytes(b)
  {
    if b == [] {
      assert a + b == a;
    } else {
      assert (a + b)[..|a + b| - 1] == a + b[..|b| - 1];
      TotalAppend(a, b[..|b| - 1]);
    }
  }

  function Flatten(parts: seq<seq<string>>): seq<string> {
    if parts == [] then [] else Flatten(parts[..|parts| - 1]) + parts[|parts| - 1]
  }

  lemma FlattenMore(parts: seq<seq<string>>, part: seq<string>)
    ensures Flatten(parts + [part]) == Flatten(parts) + part
    ensures TotalBytes(Flatten(parts + [part])) == TotalBytes(Flatten(parts)) + TotalBytes(part)
  {
    assert (parts + [part])[..|parts|] == parts;
    TotalAppend(Flatten(parts), part);
  }

  /** Closed parts reach their share of the bytes, so there cannot be too many of them. */
  lemma ShareBound(parts: nat, nsplits: nat, inParts: nat, total: nat)
    requires parts * total <= nsplits * inParts && inParts <= total && total > 0 && nsplits > 0
    ensures parts <= nsplits && (inParts < total ==> parts < nsplits)
  {
    Scales(inParts, total, nsplits);
    Cancels(parts, nsplits, total);
  }

  lemma Scales(a: nat, b: nat, c: nat)
    requires a <= b && c > 0
    ensures c * a <= c * b && (a < b ==> c * a < c * b)
  {
    assert c * (b - a) >= 0;
  }

  lemma Cancels(a: nat, b: nat, c: nat)
    requires a * c <= b * c && c > 0
    ensures a <= b && (a * c < b * c ==> a < b)
  {
    assert (a - b) * c == a * c - b * c;
  }

  /** The bytes reach the total divided by the number of splits. */
  predicate Reaches(bytes: nat, nsplits: nat, total: nat) {
    bytes * nsplits >= total
  }

  /** All parts together have their shares. */
  predicate HaveShares(partitions: seq<seq<string>>, nsplits: nat, total: nat) {
    |partitions| * total <= nsplits * TotalBytes(Flatten(partitions))
  }

  /** A part that reaches its share of the bytes, and does so only with its last file. */
  predicate IsShare(part: seq<string>, nsplits: nat, total: nat) {
    part != [] && Reaches(TotalBytes(part), nsplits, total) &&
    (|part| > 1 ==> !Reaches(TotalBytes(part[..|part| - 1]), nsplits, total))
  }

  /** The split: all files in their order, in non-empty parts, of which there are at most `nsplits` if the last file
      is not empty. A part is closed when it has reached an `nsplits`-th of the bytes. */
  method GenerateSplits(files: seq<string>, nsplits: nat) returns (partitions: seq<seq<string>>)
    requires nsplits > 0
    ensures Flatten(partitions) == files
    ensures forall k :: 0 <= k < |partitions| ==> partitions[k] != []
    ensures forall k :: 0 <= k < |partitions| - 1 ==> IsShare(partitions[k], nsplits, TotalBytes(files))
    ensures files != [] && files[|files| - 1] != "" ==> |partitions| <= nsplits
  {
    var totalBytes := TotalBytes(files);
    var currentBytes := 0;
    var currentPartition: seq<string> := [];
    partitions := [];
    for i := 0 to |files|
      invariant Splitting(files[..i], partitions, currentPartition, nsplits, totalBytes)
      invariant currentBytes == TotalBytes(currentPartition)
    {
      assert files[..i + 1] == files[..i] + [files[i]];
      TakeFile(files[..i], files[i], partitions, currentPartition, nsplits, totalBytes);
      currentPartition := currentPartition + [files[i]];
      currentBytes := currentBytes + |files[i]|;
      if Reaches(currentBytes, nsplits, totalBytes) {
        partitions := partitions + [currentPartition];
        currentPartition := [];
        currentBytes := 0;
      }
    }
    assert files[..|files|] == files;
    CountParts(files, nsplits, partitions, currentPartition);
    if |currentPartition| > 0 {
      FlattenMore(partitions, currentPartition);
      partitions := partitions + [currentPartition];
    }
  }

  /** The parts closed so far and the current one. */
  ghost predicate Splitting(files: seq<string>, partitions: seq<seq<string>>, current: seq<string>, nsplits: nat, total: nat) {
    Flatten(partitions) + current == files && HaveShares(partitions, nsplits, total) &&
    (current != [] ==> !Reaches(TotalBytes(current), nsplits, total)) &&
    forall k :: 0 <= k < |partitions| ==> IsShare(partitions[k], nsplits, total)
  }

  lemma TakeFile(files: seq<string>, file: string, partitions: seq<seq<string>>, current: seq<string>, nsplits: nat, total: nat)
    requires Splitting(files, partitions, current, nsplits, total)
    ensures TotalBytes(current + [file]) == TotalBytes(current) + |file|
    ensures Reaches(TotalBytes(current + [file]), nsplits, total) ==>
              Splitting(files + [file], partitions + [current + [file]], [], nsplits, total)
    ensures !Reaches(TotalBytes(current + [file]), nsplits, total) ==>
              Splitting(files + [file], partitions, current + [file], nsplits, total)
  {
    var more := current + [file];
    assert more[..|current|] == current;
    assert Flatten(partitions) + more == files + [file];
    if Reaches(TotalBytes(more), nsplits, total) {
      assert IsShare(more, nsplits, total);
      FlattenMore(partitions, more);
      Accumulates(partitions, more, nsplits, total);
      assert Flatten(partitions + [more]) + [] == files + [file];
    }
  }

  lemma CountParts(files: seq<string>, nsplits: nat, partitions: seq<seq<string>>, rest: seq<string>)
    requires nsplits > 0 && Flatten(partitions) + rest == files
    requires HaveShares(partitions, nsplits, TotalBytes(files))
    ensures files != [] && files[|files| - 1] != "" ==> |partitions| + (if rest == [] then 0 else 1) <= nsplits
  {
    TotalAppend(Flatten(partitions), rest);
    if files != [] && files[|files| - 1] != "" {
      LastCounts(files, Flatten(partitions), rest);
      ShareBound(|partitions|, nsplits, TotalBytes(Flatten(partitions)), TotalBytes(files));
    }
  }

  lemma Accumulates(partitions: seq<seq<string>>, part: seq<string>, nsplits: nat, total: nat)
    requires HaveShares(partitions, nsplits, total) && Reaches(TotalBytes(part), nsplits, total)
    ensures HaveShares(partitions + [part], nsplits, total)
  {
    FlattenMore(partitions, part);
    Distributes(|partitions|, total, nsplits, TotalBytes(Flatten(partitions)), TotalBytes(part));
  }

  lemma Distributes(parts: nat, total: nat, nsplits: nat, inParts: nat, bytes: nat)
    requires parts * total <= nsplits * inParts && bytes * nsplits >= total
    ensures (parts + 1) * total <= nsplits * (inParts + bytes)
  {
  }

  lemma LastCounts(files: seq<string>, parts: seq<string>, rest: seq<string>)
    requires files != [] && files[|files| - 1] != "" && parts + rest == files
    ensures TotalBytes(files) > 0 && (rest != [] ==> TotalBytes(parts) < TotalBytes(files))
  {
    TotalAppend(parts, rest);
    if rest != [] {
      assert rest[|rest| - 1] == files[|files| - 1];
    }
  }
}
