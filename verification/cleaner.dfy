/** `clean_response`: the reply text after code fences are removed, shown as a table when it looks delimited. */
module Cleaner {
  import opened Wrappers
  import opened Seqs
  import opened Strings

  /** Three backticks open and close a fenced block. */
  const Fence: string := "```"

  /** The language tag the pattern skips after an opening fence. */
  const PythonTag: string := "python"

  /** The label returned with every cleaned reply. */
  const CleanedTitle: string := "\U{1F4DD} Response (Cleaned):"

  /** A fence starts at index `k` of `s`. */
  predicate FenceAt(s: string, k: int)
  {
    0 <= k && k + 3 <= |s| && s[k..k + 3] == Fence
  }

  ghost predicate ContainsFence(s: string)
  {
    exists k :: FenceAt(s, k)
  }

  /** The lazy `(.*?)` followed by a fence: the first fence at or after `from`. */
  function FindFence(s: string, from: nat): (r: Option<nat>)
    ensures r.Some? ==> from <= r.value && FenceAt(s, r.value) &&
                        forall k :: from <= k < r.value ==> !FenceAt(s, k)
    ensures r.None? ==> forall k :: from <= k ==> !FenceAt(s, k)
    decreases |s| - from
  {
    if from + 3 > |s| then None
    else if FenceAt(s, from) then Some(from)
    else FindFence(s, from + 1)
  }

  /** Where the body of a block opened at index 0 starts: after the fence and an optional `python` tag. */
  function BodyStart(s: string): nat
    requires FenceAt(s, 0)
  {
    if IsPrefix(PythonTag, s[3..]) then 9 else 3
  }

  /**
   * `re.sub(r"```(?:python)?(.*?)```", "", s, flags=re.DOTALL)`: scanning left to
   * right, each fence together with the nearest following fence and everything
   * between them is deleted. An opening fence with no fence after it ends the
   * scan: no later match is possible either, so the rest is kept.
   */
  function RemoveFencedBlocks(s: string): (r: string)
    ensures |r| <= |s|
    decreases |s|
  {
    if |s| < 3 then s
    else if FenceAt(s, 0) then
      match FindFence(s, BodyStart(s))
      case Some(c) => RemoveFencedBlocks(s[c + 3..])
      case None => s
    else [s[0]] + RemoveFencedBlocks(s[1..])
  }

  /** Shifting a string by one character shifts its fence positions by one. */
  lemma FenceShift(s: string, k: int)
    requires s != [] && 0 <= k
    ensures FenceAt(s[1..], k) <==> FenceAt(s, k + 1)
  {
    if 0 <= k && k + 3 <= |s[1..]| {
      assert s[1..][k..k + 3] == s[k + 1..k + 4];
    }
  }

  /** Text without any fence passes through fence removal unchanged. */
  lemma {:induction false} NoFenceUnchanged(s: string)
    requires !ContainsFence(s)
    ensures RemoveFencedBlocks(s) == s
    decreases |s|
  {
    if |s| >= 3 {
      assert !FenceAt(s, 0);
      forall k | 0 <= k ensures !FenceAt(s[1..], k) {
        FenceShift(s, k);
      }
      NoFenceUnchanged(s[1..]);
      assert [s[0]] + s[1..] == s;
    }
  }

  /** A block at the very start: the first fence after the opening one closes it. */
  lemma LeadingBlockRemoved(body: string, post: string)
    requires !ContainsFence(body + "``")
    ensures RemoveFencedBlocks(Fence + body + Fence + post) == RemoveFencedBlocks(post)
  {
    var s := Fence + body + Fence + post;
    var c := 3 + |body|;
    assert s[..3] == Fence;
    assert s[c..c + 3] == Fence;
    assert FenceAt(s, 0) && FenceAt(s, c);
    forall k | 3 <= k < c ensures !FenceAt(s, k) {
      if k + 3 <= |s| {
        assert s[k..k + 3] == (body + "``")[k - 3..k];
      }
      assert !FenceAt(body + "``", k - 3);
    }
    if |body| < 6 {
      assert s[3..][|body|] == '`' && PythonTag[|body|] != '`';
      assert !IsPrefix(PythonTag, s[3..]);
    }
    var b := BodyStart(s);
    assert b <= c;
    var r := FindFence(s, b);
    assert r.Some? && r.value >= c;
    assert r == Some(c);
    assert s[c + 3..] == post;
  }

  /**
   * A complete fenced block disappears with its contents while the text before
   * it is kept, provided no fence starts in that text or inside the block.
   * (Two extra backticks stand for a fence that would straddle the boundary.)
   */
  lemma {:induction false} FencedBlockRemoved(pre: string, body: string, post: string)
    requires !ContainsFence(pre + "``")
    requires !ContainsFence(body + "``")
    ensures RemoveFencedBlocks(pre + Fence + body + Fence + post) == pre + RemoveFencedBlocks(post)
    decreases |pre|
  {
    if pre == [] {
      assert pre + Fence + body + Fence + post == Fence + body + Fence + post;
      LeadingBlockRemoved(body, post);
    } else {
      var rest := Fence + body + Fence + post;
      var s := pre + rest;
      TailHasNoFence(pre, rest);
      calc {
        RemoveFencedBlocks(pre + Fence + body + Fence + post);
        { assert pre + Fence + body + Fence + post == s; }
        RemoveFencedBlocks(s);
        { KeepFirst(s); }
        [s[0]] + RemoveFencedBlocks(s[1..]);
        { assert s[1..] == pre[1..] + rest == pre[1..] + Fence + body + Fence + post; }
        [s[0]] + RemoveFencedBlocks(pre[1..] + Fence + body + Fence + post);
        { FencedBlockRemoved(pre[1..], body, post); }
        [s[0]] + (pre[1..] + RemoveFencedBlocks(post));
        { assert [s[0]] + pre[1..] == pre; }
        pre + RemoveFencedBlocks(post);
      }
    }
  }

  /** Dropping the first character of fence-free text before a fence keeps it fence-free, and that character opens no fence. */
  lemma TailHasNoFence(pre: string, rest: string)
    requires pre != [] && !ContainsFence(pre + "``")
    requires |rest| >= 3 && rest[..3] == Fence
    ensures !FenceAt(pre + rest, 0)
    ensures !ContainsFence(pre[1..] + "``")
  {
    var t := pre + "``";
    assert (pre + rest)[..3] == t[..3];
    assert !FenceAt(t, 0);
    assert t[1..] == pre[1..] + "``";
    forall k | 0 <= k ensures !FenceAt(pre[1..] + "``", k) {
      FenceShift(t, k);
    }
  }

  /**
   * An opening fence with no fence after it matches nothing: the regular
   * expression finds no closing fence, so the fence and the rest are kept.
   * (Two extra backticks stand for a fence overlapping the opening one.)
   */
  lemma LeadingUnclosedFenceKept(post: string)
    requires !ContainsFence("``" + post)
    ensures RemoveFencedBlocks(Fence + post) == Fence + post
  {
    var s := Fence + post;
    var t := "``" + post;
    assert s[..3] == Fence;
    forall k | 1 <= k ensures !FenceAt(s, k) {
      if k + 3 <= |s| {
        assert s[k..k + 3] == t[k - 1..k + 2];
      }
      assert !FenceAt(t, k - 1);
    }
    var r := FindFence(s, BodyStart(s));
    assert r.None?;
  }

  /**
   * Text with an unclosed fence: the fence-free text before it is kept, and so
   * are the fence and everything after it.
   */
  lemma {:induction false} UnclosedFenceKept(pre: string, post: string)
    requires !ContainsFence(pre + "``")
    requires !ContainsFence("``" + post)
    ensures RemoveFencedBlocks(pre + Fence + post) == pre + Fence + post
    decreases |pre|
  {
    if pre == [] {
      assert pre + Fence + post == Fence + post;
      LeadingUnclosedFenceKept(post);
    } else {
      var rest := Fence + post;
      var s := pre + rest;
      TailHasNoFence(pre, rest);
      calc {
        RemoveFencedBlocks(pre + Fence + post);
        { assert pre + Fence + post == s; }
        RemoveFencedBlocks(s);
        { KeepFirst(s); }
        [s[0]] + RemoveFencedBlocks(s[1..]);
        { assert s[1..] == pre[1..] + rest == pre[1..] + Fence + post; }
        [s[0]] + RemoveFencedBlocks(pre[1..] + Fence + post);
        { UnclosedFenceKept(pre[1..], post); }
        [s[0]] + (pre[1..] + Fence + post);
        { assert [s[0]] + pre[1..] == pre; }
        pre + Fence + post;
      }
    }
  }

  /** A first character that opens no fence is kept. */
  lemma KeepFirst(s: string)
    requires |s| >= 3 && !FenceAt(s, 0)
    ensures RemoveFencedBlocks(s) == [s[0]] + RemoveFencedBlocks(s[1..])
  {
  }

  /** A line that looks like table data: it holds a comma or a tab. */
  predicate IsTableLine(line: string): (b: bool)
    ensures b <==> exists k :: 0 <= k < |line| && (line[k] == ',' || line[k] == '\t')
  {
    ',' in line || '\t' in line
  }

  /** The lines of the reply once fences are removed and surrounding whitespace is stripped. */
  function ReplyLines(reply: string): (lines: seq<string>)
    ensures |lines| >= 1
    ensures forall l :: l in lines ==> '\n' !in l
    ensures Join(lines, '\n') == Strip(RemoveFencedBlocks(reply))
  {
    Split(Strip(RemoveFencedBlocks(reply)), '\n')
  }

  /** `table_lines`: the reply lines holding a comma or a tab, in their original order. */
  function TableLines(reply: string): (r: seq<string>)
    ensures forall l :: l in r <==> l in ReplyLines(reply) && IsTableLine(l)
  {
    Filter(ReplyLines(reply), IsTableLine)
  }

  /**
   * The table lines keep the order of the reply: filtering the reply lines piece
   * by piece gives the same lines in the same order as filtering them at once.
   */
  lemma TableLinesKeepOrder(reply: string, before: seq<string>, after: seq<string>)
    requires ReplyLines(reply) == before + after
    ensures TableLines(reply) == Filter(before, IsTableLine) + Filter(after, IsTableLine)
  {
    FilterConcat(before, after, IsTableLine);
  }

  /** What `clean_response` hands back besides its label: a parsed frame or plain text. */
  datatype Cleaned<F> = Parsed(frame: F) | Plain(text: string)

  /**
   * `clean_response(text)`. `readCsv` stands for `pd.read_csv` on the joined
   * table lines: `Some(frame)` when it parses, `None` when it raises.
   */
  function CleanResponse<F>(reply: string, readCsv: string -> Option<F>): (r: (string, Cleaned<F>))
    ensures r.0 == CleanedTitle
    ensures r.1.Parsed? ==> |TableLines(reply)| >= 2
    ensures r.1.Plain? ==> r.1.text == Strip(RemoveFencedBlocks(reply))
  {
    var text := RemoveFencedBlocks(reply);
    var tableLines := TableLines(reply);
    if |tableLines| > 1 && readCsv(Join(tableLines, '\n')).Some? then
      (CleanedTitle, Parsed(readCsv(Join(tableLines, '\n')).value))
    else
      (CleanedTitle, Plain(Strip(text)))
  }

  /** With fewer than two table lines the parser is never consulted: the stripped text comes back. */
  lemma FewTableLinesNeverParse<F>(reply: string, readCsv: string -> Option<F>, other: string -> Option<F>)
    requires |TableLines(reply)| < 2
    ensures CleanResponse(reply, readCsv) == CleanResponse(reply, other)
    ensures CleanResponse(reply, readCsv).1 == Plain(Strip(RemoveFencedBlocks(reply)))
  {
  }

  /** The result is a parsed frame exactly when there are two or more table lines and they parse. */
  lemma ParsedExactly<F>(reply: string, readCsv: string -> Option<F>)
    ensures CleanResponse(reply, readCsv).1.Parsed? <==>
            |TableLines(reply)| >= 2 && readCsv(Join(TableLines(reply), '\n')).Some?
    ensures CleanResponse(reply, readCsv).1.Parsed? ==>
            readCsv(Join(TableLines(reply), '\n')) == Some(CleanResponse(reply, readCsv).1.frame)
  {
  }

  /**
   * The text given to the CSV parser holds exactly the table lines: splitting it
   * on newlines gives them back, each one unchanged and in order.
   */
  lemma ParserReceivesTableLines(reply: string)
    requires TableLines(reply) != []
    ensures Split(Join(TableLines(reply), '\n'), '\n') == TableLines(reply)
  {
    var lines := TableLines(reply);
    assert forall k :: 0 <= k < |lines| ==> lines[k] in lines;
    SplitJoin(lines, '\n');
  }

  /** A reply without fences is only stripped and split before the table lines are picked. */
  lemma FenceFreeReply<F>(reply: string, readCsv: string -> Option<F>)
    requires !ContainsFence(reply)
    ensures TableLines(reply) == Filter(Split(Strip(reply), '\n'), IsTableLine)
    ensures CleanResponse(reply, readCsv).1.Plain? ==> CleanResponse(reply, readCsv).1.text == Strip(reply)
  {
    NoFenceUnchanged(reply);
  }

  /** A fenced block in the reply never reaches the plain-text fallback. */
  lemma FencedBlockDropped<F>(pre: string, body: string, post: string, readCsv: string -> Option<F>)
    requires !ContainsFence(pre + "``")
    requires !ContainsFence(body + "``")
    ensures var r := CleanResponse(pre + Fence + body + Fence + post, readCsv);
            r.1.Plain? ==> r.1.text == Strip(pre + RemoveFencedBlocks(post))
  {
    FencedBlockRemoved(pre, body, post);
  }
}
