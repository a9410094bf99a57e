# Workflow splice of `tools/patch_pages.py`

`tools/patch_pages.py` rewrites the GitHub Pages workflow. It looks for the first
header of the "Prepare site folder" step (the anchor `- name: Prepare site folder`
followed by `run: |`), and replaces the text after it by a fixed shell script
(`new_run`) that rebuilds the `site` folder and writes a demo page. The replaced
region runs from just after the anchor up to the first end marker after it (a blank
line followed by a step indented six spaces, `"\n\n      - name:"`), or to the end
of the text when there is none. The region is therefore not the `run: |` body as
YAML sees it: a following step without that blank line before it, or indented
otherwise, is replaced as well, and so are any keys of the step after its `run: |`
block. When the anchor is absent the script stops with
"anchor not found in pages.yml".

The model is three modules of pure functions and lemmas:

- `Wrappers`: `Option` (for `str.find`'s `-1`) and `Result` (for the `SystemExit`).
- `Text`: Python's `str.find` as `Find`, specified as the least index of an
  occurrence, with the facts about first occurrences that the splice relies on.
- `PatchPages`: the constants `ANCHOR`, `END_MARKER`, `ANCHOR_MISSING` and `NEW_RUN`
  (written as the 29 adjacent literals of the source), `RunEnd` (`end_rel`), and
  the splice. `Splice(s, block)` is the script with the new body as a parameter;
  `Patch(s)` is `Splice(s, NEW_RUN)`, the script itself. The properties are stated
  for `Splice` and so hold for `Patch` and any other block.

## Model

| member | source | states |
|---|---|---|
| Text.FindFrom | tools/patch_pages.py:6 | the search from position `k` returns the least index `>= k` where the pattern occurs, or none when it occurs at no index `>= k` |
| Text.Find | tools/patch_pages.py:6 | `str.find`: a result exists exactly when the pattern occurs, and it is the first occurrence (it occurs there and at no smaller index) |
| Text.FindIsFirst | tools/patch_pages.py:6 | conversely, whenever the pattern occurs first at `i`, `Find` returns `i` |
| Text.FirstInCommonPrefix | tools/patch_pages.py:6 | a first occurrence lying inside a prefix that two texts share is the first occurrence in both |
| Text.NoDoubleBreakBefore | tools/patch_pages.py:11 | in a text without empty lines, a marker starting with two line breaks cannot start inside it, even when a tail whose second character is a line break follows (as when the tail starts with the end marker) |
| PatchPages.RunEnd | tools/patch_pages.py:10-14 | `end_rel` lies within `rest`; no end marker starts before it; it is short of the end exactly when `rest` contains the end marker, and then the end marker occurs there |
| PatchPages.Splice | tools/patch_pages.py:5-46 | the splice fails exactly when the anchor is absent, and then with the message "anchor not found in pages.yml" |
| PatchPages.Patch | tools/patch_pages.py:5-46 | the script fails exactly when the anchor is absent, with the same message, and otherwise yields the patched text |
| PatchPages.SpliceKeepsAnchorPrefix | tools/patch_pages.py:9-46 | with the first anchor at `i`, the splice succeeds, the text up to the end of the anchor is unchanged and the new block follows it immediately |
| PatchPages.SpliceKeepsNextStep | tools/patch_pages.py:10-46 | when the first end marker after the anchor is at `e`, the result is the text up to the anchor, the block, then the original text from that end marker on; its length follows, and the end marker sits right after the block |
| PatchPages.SpliceReplacesToEnd | tools/patch_pages.py:13-46 | when no end marker follows the anchor, the result is exactly the text up to the anchor followed by the block |
| PatchPages.SpliceLength | tools/patch_pages.py:9-46 | the result's length is `start + len(block) + (len(rest) - end_rel)` |
| PatchPages.AnchorFirstBefore | tools/patch_pages.py:5-6 | an anchor preceded by anchor-free text is the one the search finds, whatever follows it |
| PatchPages.RunEndAtNextStep | tools/patch_pages.py:11-14 | `end_rel` is the start of the tail when no end marker starts earlier and the tail is empty or begins with the end marker |
| PatchPages.TailAfterRunEnd | tools/patch_pages.py:11-14 | what is kept after the replaced region is empty or begins with the end marker |
| PatchPages.SpliceBetweenMarkers | tools/patch_pages.py:5-46 | the splice is a replacement between markers: for text = prefix free of the anchor + anchor + region with no end marker starting in it + tail (empty or starting with the end marker), exactly the region is replaced by the block |
| PatchPages.BlockThenNextStep | tools/patch_pages.py:11-46 | a block without empty lines, followed by an empty tail or the next step, holds no end marker starting inside it |
| PatchPages.SpliceIdempotent | tools/patch_pages.py:5-46 | for a block without empty lines, splicing it into the output again gives the same output |

## Left out

- Reading and writing `.github/workflows/pages.yml` and the closing `print` (tools/patch_pages.py:3-4, 47-48): the text read is the input of `Patch`, the text written is its success value.
- `SystemExit` (tools/patch_pages.py:8) is modelled as the `Failure` value carrying its message; process exit is not modelled.
- PatchPages.SpliceIdempotent: states idempotence for every block without empty lines; that the concrete `NEW_RUN` literal has no empty line is not proved, because the solver's reasoning over the long literal lines is too slow to be stable, so `Patch(Patch(s)) == Patch(s)` itself is not stated.
- `src/ChatWidget.jsx`: a React view component whose state lives in hooks and whose only logic is view wiring tied to the React runtime.
- `src/index.js`: DOM mounting and the global `window.ChatWidget` assignment.
- `esbuild.config.js`: build configuration around a foreign bundler call.
- The widget registry, isolated-frame lifecycle and trigger wiring: no source file implementing them is part of this model.
