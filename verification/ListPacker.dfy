/** `list_file`: packing the formatted entries of a folder into messages. */
module ListPacker {
  import opened Wire

  datatype Item = Item(name: string, isFolder: bool)

  const BLUE := "\U{1b}[34m"
  const PLAIN := "\U{1b}[0m"

  /** One line of the listing. */
  function Format(item: Item): string {
    (if item.isFolder then BLUE else PLAIN) + item.name + PLAIN + "\n"
  }

  /** A line begins with the colour of its kind and then the name, and from the
      line both can be told. */
  lemma {:induction false} FormatShows(item: Item)
    ensures var line := Format(item);
            && |line| == |item.name| + (if item.isFolder then 10 else 9)
            && (item.isFolder <==> "\U{1b}[34m" <= line) && (!item.isFolder <==> "\U{1b}[0m" <= line)
            && line[|line| - |item.name| - 5..|line| - 5] == item.name
            && line[|line| - 5..] == "\U{1b}[0m\n"
  {
    var line := Format(item);
    assert BLUE[2] == '3' && PLAIN[2] == '0' && line[2] == if item.isFolder then '3' else '0';
  }

  lemma {:induction false} FormatInjective(a: Item, b: Item)
    ensures Format(a) == Format(b) <==> a == b
  {
    FormatShows(a);
    FormatShows(b);
  }

  function Formatted(items: seq<Item>): seq<string> {
    seq(|items|, k requires 0 <= k < |items| => Format(items[k]))
  }

  /** Message `m` holds the whole lines from `cuts[m]` up to `cuts[m + 1]`, and
      it was sent only because the next line did not fit any more. */
  predicate Message(lines: seq<string>, send: string, from: nat, to: nat) {
    && from < to <= |lines| && send == Flat(lines[from..to]) && 0 < |send| < BUFFER_SIZE
    && (to < |lines| ==> |send| + |lines[to]| >= BUFFER_SIZE)
  }

  predicate Messages(lines: seq<string>, sends: seq<string>, cuts: seq<nat>) {
    && |cuts| == |sends| + 1 && cuts[0] == 0
    && forall m | 0 <= m < |sends| :: Message(lines, sends[m], cuts[m], cuts[m + 1])
  }

  /** After `k` lines the messages and the buffer hold exactly these. */
  ghost predicate Packing(lines: seq<string>, sends: seq<string>, cuts: seq<nat>, buffer: string, k: nat) {
    && Messages(lines, sends, cuts) && cuts[|sends|] <= k <= |lines|
    && buffer == Flat(lines[cuts[|sends|]..k]) && |buffer| < BUFFER_SIZE
    && Flat(sends) + buffer == Flat(lines[..k])
  }

  lemma {:induction false} AppendLine(lines: seq<string>, sends: seq<string>, cuts: seq<nat>, buffer: string, k: nat)
    requires Packing(lines, sends, cuts, buffer, k) && k < |lines| && |buffer| + |lines[k]| < BUFFER_SIZE
    ensures Packing(lines, sends, cuts, buffer + lines[k], k + 1)
  {
    var cut := cuts[|sends|];
    FlatAppend(lines[cut..k], lines[k]);
    FlatAppend(lines[..k], lines[k]);
    assert lines[cut..k + 1] == lines[cut..k] + [lines[k]];
    assert lines[..k + 1] == lines[..k] + [lines[k]];
  }

  lemma {:induction false} SendBuffer(lines: seq<string>, sends: seq<string>, cuts: seq<nat>, buffer: string, k: nat)
    requires Packing(lines, sends, cuts, buffer, k) && buffer != ""
    requires k < |lines| ==> |buffer| + |lines[k]| >= BUFFER_SIZE
    ensures Packing(lines, sends + [buffer], cuts + [k], "", k)
  {
    FlatAppend(sends, buffer);
    assert lines[k..k] == [];
    assert cuts[|sends|] == k ==> buffer == "";
    assert Message(lines, buffer, cuts[|sends|], k);
  }

  /** The sends together are the lines together, in order; no line is split, and
      every message but the last is as long as the buffer allows. */
  method ListFile(items: seq<Item>) returns (sends: seq<string>, ghost cuts: seq<nat>)
    requires forall k | 0 <= k < |items| :: |Format(items[k])| < BUFFER_SIZE
    ensures Flat(sends) == Flat(Formatted(items))
    ensures Messages(Formatted(items), sends, cuts) && cuts[|sends|] == |items|
  {
    sends, cuts := [], [0];
    var buffer := "";
    var k := 0;
    ghost var lines := Formatted(items);
    while k < |items|
      invariant 0 <= k <= |items| && Packing(lines, sends, cuts, buffer, k)
    {
      var line := Format(items[k]);
      assert lines[k] == line;
      if |line| >= BUFFER_SIZE - |buffer| {
        SendBuffer(lines, sends, cuts, buffer, k);
        sends, cuts := sends + [buffer], cuts + [k];
        buffer := "";
      }
      AppendLine(lines, sends, cuts, buffer, k);
      buffer := buffer + line;
      k := k + 1;
    }
    assert lines[..k] == lines;
    if |buffer| > 0 {
      SendBuffer(lines, sends, cuts, buffer, k);
      sends, cuts := sends + [buffer], cuts + [k];
    } else {
      NonemptyFlat(items, cuts[|sends|]);
    }
  }

  lemma {:induction false} NonemptyFlat(items: seq<Item>, from: nat)
    requires from <= |items|
    ensures Flat(Formatted(items)[from..]) == "" ==> from == |items|
  {
    assert from < |items| ==> Formatted(items)[from..][0] == Format(items[from]);
  }
}
