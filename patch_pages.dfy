/**
 * The workflow patch of tools/patch_pages.py: in the text of the Pages
 * workflow, the text after the first "Prepare site folder" step header (the
 * anchor) is replaced by a fixed shell script. The replaced region runs up to
 * the first end marker after the anchor (a blank line followed by a step
 * indented six spaces), or to the end of the text when there is none; a step
 * that follows without that blank line is replaced along with the rest.
 */
module PatchPages {
  import opened Wrappers
  import opened Text

  /** The step header whose `run: |` body is replaced. */
  const ANCHOR: string := "- name: Prepare site folder\n        run: |\n"

  /** A blank line followed by the next step of the job. */
  const END_MARKER: string := "\n\n      - name:"

  /** The message of the `SystemExit` raised when the anchor is absent. */
  const ANCHOR_MISSING: string := "anchor not found in pages.yml"

  /**
   * `new_run`: the new body of the step, a script indented for the `run: |`
   * block that rebuilds the `site` folder, copies the bundle into it and writes
   * a demo page through a here-document.
   */
  const NEW_RUN: string :=
    "          rm -rf site\n"
    + "          mkdir -p site\n"
    + "          cp -R dist site/dist\n"
    + "          cat > site/index.html << 'EOF'\n"
    + "          <!doctype html>\n"
    + "          <html>\n"
    + "            <head>\n"
    + "              <meta charset=\"utf-8\" />\n"
    + "              <meta name=\"viewport\" content=\"width=device-width, initial-scale=1\" />\n"
    + "              <title>Chat Widget Demo</title>\n"
    + "              <script src=\"./dist/chat-widget.js\" defer></script>\n"
    + "              <style>\n"
    + "                body { font-family: system-ui, -apple-system, Segoe UI, Roboto, sans-serif; padding: 24px; }\n"
    + "                .container { max-width: 720px; margin: 0 auto; }\n"
    + "                .card { border: 1px solid #e5e7eb; border-radius: 12px; padding: 16px; box-shadow: 0 8px 24px rgba(2,6,23,0.08); }\n"
    + "                button { padding:8px 12px; border:0; border-radius:8px; background:#0b84ff; color:#fff; cursor:pointer; }\n"
    + "              </style>\n"
    + "            </head>\n"
    + "            <body>\n"
    + "              <div class=\"container\">\n"
    + "                <h1>Chat Widget Demo</h1>\n"
    + "                <p>This minimal page loads the bundle and opens the widget via the button.</p>\n"
    + "                <div class=\"card\">\n"
    + "                  <p><button data-cw-trigger data-cw-id=\"ext-user-42\" data-cw-accent=\"#0b84ff\" data-cw-bg=\"#ffffff\">Open widget</button></p>\n"
    + "                </div>\n"
    + "              </div>\n"
    + "            </body>\n"
    + "          </html>\n"
    + "          EOF\n"

  /**
   * `end_rel`: where the replaced region ends inside `rest`, the text after the
   * anchor. It is the first end marker, or the end of the text when there is none.
   */
  function RunEnd(rest: string): (e: nat)
    ensures e <= |rest|
    ensures forall j :: 0 <= j < e ==> !OccursAt(rest, END_MARKER, j)
    ensures e < |rest| <==> Contains(rest, END_MARKER)
    ensures e < |rest| ==> OccursAt(rest, END_MARKER, e)
  {
    match Find(rest, END_MARKER)
    case Some(k) => k
    case None => |rest|
  }

  /**
   * The splice with the new body `block` as a parameter: find the first anchor,
   * fail without output when there is none, and otherwise replace the text
   * between the anchor and `RunEnd` by `block`.
   */
  function Splice(s: string, block: string): (r: Result<string, string>)
    ensures r.Failure? <==> !Contains(s, ANCHOR)
    ensures r.Failure? ==> r.error == ANCHOR_MISSING
  {
    match Find(s, ANCHOR)
    case None => Failure(ANCHOR_MISSING)
    case Some(i) =>
      var start := i + |ANCHOR|;
      var rest := s[start..];
      var endRel := RunEnd(rest);
      Success(s[..start] + block + rest[endRel..])
  }

  /**
   * The whole script: the input is the workflow text read from the file, the
   * success value is the text written back, and the failure carries the
   * message of the `SystemExit`.
   */
  function Patch(s: string): (r: Result<string, string>)
    ensures r.Failure? <==> !Contains(s, ANCHOR)
    ensures r.Failure? ==> r.error == ANCHOR_MISSING
  {
    Splice(s, NEW_RUN)
  }

  /**
   * Everything up to and including the first anchor is kept, and the new
   * block follows it immediately.
   */
  lemma SpliceKeepsAnchorPrefix(s: string, block: string, i: nat)
    requires IsFirst(s, ANCHOR, i)
    ensures Splice(s, block).Success?
    ensures |Splice(s, block).value| >= i + |ANCHOR| + |block|
    ensures Splice(s, block).value[..i + |ANCHOR|] == s[..i + |ANCHOR|]
    ensures Splice(s, block).value[i + |ANCHOR|..i + |ANCHOR| + |block|] == block
  {
    FindIsFirst(s, ANCHOR, i);
  }

  /**
   * When the next step follows the anchor, the text from its end marker on is
   * kept unchanged after the new block, and only the old body is replaced.
   */
  lemma SpliceKeepsNextStep(s: string, block: string, i: nat, e: nat)
    requires IsFirst(s, ANCHOR, i)
    requires IsFirst(s[i + |ANCHOR|..], END_MARKER, e)
    ensures Splice(s, block) == Success(s[..i + |ANCHOR|] + block + s[i + |ANCHOR| + e..])
    ensures |Splice(s, block).value| == |s| - e + |block|
    ensures OccursAt(Splice(s, block).value, END_MARKER, i + |ANCHOR| + |block|)
  {
    FindIsFirst(s, ANCHOR, i);
    var start := i + |ANCHOR|;
    var rest := s[start..];
    FindIsFirst(rest, END_MARKER, e);
    assert rest[e..] == s[start + e..];
    var out := s[..start] + block + rest[e..];
    var at := start + |block|;
    assert out[at..at + |END_MARKER|] == rest[e..e + |END_MARKER|];
  }

  /**
   * When no end marker follows the anchor, everything after the anchor is
   * replaced: the result ends with the new block.
   */
  lemma SpliceReplacesToEnd(s: string, block: string, i: nat)
    requires IsFirst(s, ANCHOR, i)
    requires !Contains(s[i + |ANCHOR|..], END_MARKER)
    ensures Splice(s, block) == Success(s[..i + |ANCHOR|] + block)
    ensures |Splice(s, block).value| == i + |ANCHOR| + |block|
  {
    FindIsFirst(s, ANCHOR, i);
    var rest := s[i + |ANCHOR|..];
    assert RunEnd(rest) == |rest|;
    assert s[..i + |ANCHOR|] + block + rest[|rest|..] == s[..i + |ANCHOR|] + block;
  }

  /**
   * The length of the result: the text up to the end of the anchor, the new
   * block, and what follows the replaced region.
   */
  lemma SpliceLength(s: string, block: string, i: nat)
    requires IsFirst(s, ANCHOR, i)
    ensures Splice(s, block).Success?
    ensures |Splice(s, block).value|
      == i + |ANCHOR| + |block| + (|s| - i - |ANCHOR| - RunEnd(s[i + |ANCHOR|..]))
  {
    FindIsFirst(s, ANCHOR, i);
  }

  /**
   * The splice as a replacement between two markers: for a text made of a
   * part `p` free of the anchor, the anchor, a region `m` in which no end
   * marker starts, and a tail `q` that is empty or starts with the end marker,
   * the splice replaces exactly `m` by the new block.
   */
  lemma SpliceBetweenMarkers(p: string, m: string, q: string, block: string)
    requires forall j :: 0 <= j < |p| ==> !OccursAt(p + ANCHOR, ANCHOR, j)
    requires forall j :: 0 <= j < |m| ==> !OccursAt(m + q, END_MARKER, j)
    requires q == [] || OccursAt(q, END_MARKER, 0)
    ensures Splice(p + ANCHOR + m + q, block) == Success(p + ANCHOR + block + q)
  {
    var s := p + ANCHOR + m + q;
    var start := |p| + |ANCHOR|;
    assert s == p + ANCHOR + (m + q);
    AnchorFirstBefore(p, m + q);
    RunEndAtNextStep(m, q);
    assert s[..start] == p + ANCHOR;
    assert s[start..] == m + q;
    assert (m + q)[|m|..] == q;
  }

  /** The anchor appended to a text without an earlier anchor is the one found. */
  lemma AnchorFirstBefore(p: string, t: string)
    requires forall j :: 0 <= j < |p| ==> !OccursAt(p + ANCHOR, ANCHOR, j)
    ensures Find(p + ANCHOR + t, ANCHOR) == Some(|p|)
  {
    var s := p + ANCHOR + t;
    var start := |p| + |ANCHOR|;
    assert s[..start] == p + ANCHOR;
    assert (p + ANCHOR)[|p|..start] == ANCHOR;
    FirstInCommonPrefix(p + ANCHOR, s, ANCHOR, start, |p|);
    FindIsFirst(s, ANCHOR, |p|);
  }

  /**
   * The replaced region ends where the tail begins, when no end marker starts
   * earlier and the tail is empty or starts with the end marker.
   */
  lemma RunEndAtNextStep(m: string, q: string)
    requires forall j :: 0 <= j < |m| ==> !OccursAt(m + q, END_MARKER, j)
    requires q == [] || OccursAt(q, END_MARKER, 0)
    ensures RunEnd(m + q) == |m|
  {
    if q == [] {
      assert m + q == m;
    } else {
      assert (m + q)[|m|..|m| + |END_MARKER|] == q[0..|END_MARKER|];
      FindIsFirst(m + q, END_MARKER, |m|);
    }
  }

  /** What follows the replaced region is empty or starts with the end marker. */
  lemma TailAfterRunEnd(rest: string)
    ensures rest[RunEnd(rest)..] == [] || OccursAt(rest[RunEnd(rest)..], END_MARKER, 0)
  {
    var e := RunEnd(rest);
    if e < |rest| {
      assert rest[e..][..|END_MARKER|] == rest[e..e + |END_MARKER|];
    }
  }

  /**
   * Followed by an empty tail or by the next step, a block without empty lines
   * holds no end marker that starts inside it: the first one is the next step's.
   */
  lemma BlockThenNextStep(block: string, q: string)
    requires NoBlankLine(block)
    requires q == [] || OccursAt(q, END_MARKER, 0)
    ensures forall j :: 0 <= j < |block| ==> !OccursAt(block + q, END_MARKER, j)
  {
    if q != [] {
      assert q[1] == q[..|END_MARKER|][1] == END_MARKER[1];
    }
    forall j | 0 <= j < |block| ensures !OccursAt(block + q, END_MARKER, j) {
      NoDoubleBreakBefore(block, q, END_MARKER, j);
    }
  }

  /**
   * Splicing the same block into the output again changes nothing, when the
   * block has no empty line: the anchor is still the first one, and the first
   * end marker after it is the one right after the block.
   */
  lemma SpliceIdempotent(s: string, block: string)
    requires NoBlankLine(block)
    requires Splice(s, block).Success?
    ensures Splice(Splice(s, block).value, block) == Splice(s, block)
  {
    var i := Find(s, ANCHOR).value;
    var start := i + |ANCHOR|;
    var rest := s[start..];
    var q := rest[RunEnd(rest)..];
    var p := s[..i];
    assert Splice(s, block).value == s[..start] + block + q;
    assert s[..start] == p + ANCHOR by {
      assert s[i..start] == ANCHOR;
    }
    FirstInCommonPrefix(s, p + ANCHOR, ANCHOR, start, i);
    TailAfterRunEnd(rest);
    BlockThenNextStep(block, q);
    SpliceBetweenMarkers(p, block, q, block);
  }
}
