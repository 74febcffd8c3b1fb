# code-concatenator, modelled in Dafny

`concatenate_code(directory, output_file, extensions, exclude_dirs)` walks a
project tree from the top down. It skips subdirectories whose names are
excluded, along with everything below them. Every file whose name ends with
one of the configured extensions is written to a single output file. Each
such file gets a banner followed by its contents:

```
\n<80 '='>\nFile: <path relative to the root>\n<80 '='>\n\n<contents>
```

When a file cannot be read, the banner is followed instead by the line
`Error reading file: <message>`, and the walk goes on.

The model in `concatenator.dfy` (module `Concatenator`) describes the tree as
a value:

- An `Entry` is a `File` or a `Dir`.
- A `Dir` holds its children in listing order.
- A `File` carries what reading it gives, as a `ReadResult`: its text or an
  error message.

The operation is an imperative method, `ConcatenateCode`. It starts from an
empty output, because opening the output file truncates it. It then appends
one block per kept file, through the same steps as the source:

- `WriteTree`: one directory of the walk, then its pruned subdirectories.
- `WriteFiles`: the loop over a directory's own files.
- `WriteBlock`: the three banner writes, then the contents or the error line.

Each method is proved against a specification function:

- `Walk` gives the sequence of kept files in walk order.
- `Render` gives the text written for them.

The properties of that specification are proved as lemmas:

- which files appear;
- pruning;
- ordering;
- locality of read errors;
- the banner format and relative paths, which can be read back.

## Model

| member | source | states |
|---|---|---|
| Concatenator.ResolveConfig | concatenator.py:15-19 | A missing `extensions` becomes the ten default suffixes, and a missing `exclude_dirs` becomes the six default directory names. A given list, even an empty one, is used unchanged. |
| Concatenator.HasExtension | concatenator.py:27 | The suffix test accepts every name when the empty extension is listed. |
| Concatenator.Prune | concatenator.py:22-24 | The subdirectories walked are exactly the directory entries of the listing whose names are not excluded. |
| Concatenator.ConcatenateCode | concatenator.py:5-39 | The output equals the concatenation of the blocks of the selected files in walk order. It is empty for a root that is not a directory. |
| Concatenator.WriteTree | concatenator.py:22-39 | The output grows by exactly the blocks of one directory's kept files, followed by the blocks of each pruned subdirectory's subtree, taken in listing order. |
| Concatenator.WriteFiles | concatenator.py:26-39 | The loop over a directory's files appends, in listing order, exactly one block for each file that has a configured suffix. |
| Concatenator.WriteBlock | concatenator.py:28-39 | One file appends its banner and then either its contents or `Error reading file: <message>` plus a newline. |
| Concatenator.WalkMembers | concatenator.py:22-29 | A file appears in the walk of a subtree if and only if all of the following hold: it lies in that subtree, its name has a configured suffix, and no directory on the way down has an excluded name. Its label is the path below the walk's root. |
| Concatenator.SelectionMembers | concatenator.py:21-29 | At the root, a file gets a block if and only if it is kept, and it is labelled with the directory names below the root. |
| Concatenator.SelectionUnique | concatenator.py:22-29 | The tree must be well formed: within a directory no two entries share a name, and no name holds `/`, as a file system guarantees. In such a tree each kept file gets exactly one block, because no two items name the same directories and file name. |
| Concatenator.LabelsDistinct | concatenator.py:28-32 | In a well-formed tree, no two blocks carry the same `File:` label. |
| Concatenator.RelPathInjective | concatenator.py:28-29 | For names without `/`, the relative path label determines the directory names and the file name. |
| Concatenator.EmptyOutputIffNothingKept | concatenator.py:21-39 | The output is empty if and only if no file of the tree is kept. |
| Concatenator.NoExtensionsNoOutput | concatenator.py:26-27 | An empty extension list gives an empty output whatever the tree. |
| Concatenator.ExcludedSubtreeIgnored | concatenator.py:22-24 | Replacing the contents of an excluded subdirectory, at any depth, leaves the walk unchanged, so pruning is transitive. |
| Concatenator.RootNameIgnored | concatenator.py:22-24 | The root's own name is never tested against the exclusions. |
| Concatenator.FilesBeforeSubdirectories | concatenator.py:22-26 | In the walk of a directory, every block of its own files precedes every block from its subdirectories. |
| Concatenator.OwnFilesInListingOrder | concatenator.py:26-27 | Two kept files of one directory appear in the order of the listing. |
| Concatenator.RenderSplit | concatenator.py:26-39 | The output is the blocks before a file, then that file's block, then the blocks after it. |
| Concatenator.ReadFailureIsLocal | concatenator.py:35-39 | A file that fails to read keeps its banner and gets the error line in place of its contents. Every other block is unchanged, so processing continues. |
| Concatenator.ParseBanner | concatenator.py:31-33 | A recognised banner names a path without a newline. The input is exactly that banner followed by the remaining text. |
| Concatenator.BannerRoundTrip | concatenator.py:31-33 | For a path without a newline, a banner of 80 `=`, `File: <path>` and 80 `=`, with one blank line after it, parses back to the same path. The text that follows it is returned unchanged. |
| Concatenator.BannerAmbiguousWithNewline | concatenator.py:31-33 | A path that holds a newline can make the output ambiguous. A banner followed by text shaped like the end of another banner equals the banner of a different, longer path. |
| Concatenator.SplitRelPath | concatenator.py:28-29 | The relative path label, split at `/`, gives back the directory names below the root followed by the file name. |

## Left out

- The command-line front end (`concatenator.py:41-55`) is not modelled. It only forwards its arguments.
- File-system I/O is not modelled:
  - The tree is given as a value.
  - Reading a file is its `ReadResult`.
  - The output file is a string that starts empty.
- Newline translation is not modelled:
  - `Contents(text)` is the text after Python's text-mode reading, which turns `\r\n` and `\r` into `\n`. It is not the file's bytes.
  - Text-mode writing, which turns every `\n` into `\r\n` on Windows, is not modelled. This includes the banner's newlines.
- Concatenator.BannerRoundTrip: holds only for paths without a newline. File and directory names may contain a newline, and `BannerAmbiguousWithNewline` shows that the output is then ambiguous.
- UTF-8 decoding is not modelled. A file that is not valid UTF-8 appears as a `ReadFailed` entry.
- Exception texts are not modelled. The message after `Error reading file: ` is opaque.
- A failure to write the output is not modelled.
- The order in which the operating system lists a directory is not modelled. It is taken as the order of `children`.
- A directory that cannot be listed is modelled as a `Dir` with no children, because `os.walk` skips it silently.
- A root that is missing or is not a directory gives an empty output. The source behaves this way, because `os.walk` yields nothing for such a root and the output file is still created. It does not raise an error.
- Symbolic links are not modelled. `os.walk` lists a link to a directory as a directory and does not follow it.
- Path separators other than `/` are not modelled.
- Paths that `Path.relative_to` would reject are not modelled. The model's labels are always the directory names below the root.
- `os.walk` splits a listing into directories and files, and the list comprehension then removes the excluded names from the directories. The model expresses both steps as one function, `Prune`.
- Concatenator.HasExtension: its own contract states only that the empty suffix matches every name. The suffix test itself is its definition, and the membership lemmas above state what it selects.
