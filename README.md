# Password-Cracker, modelled in Dafny

Password-Cracker is a brute-force password "cracker" that exists as several
scripts: two multiprocessing Python crackers, a Tkinter front end, two CuPy
GPU scripts, three threaded C++ crackers, and a password strength checker.
Every cracker reads a target password and derives a charset from the
character classes the target uses. It then tries strings over that charset
and reports the target with the number of guesses it took. Every cracker
but gpu_cracker.py goes length by length (the *strata* 1..L, L the target's
length); gpu_cracker.py searches only the strings of the target's own
length.

This project models the sequential search underneath the threads, pools and
GPU kernels, and proves what each script computes:

- **Charset detection.** `Alphabet` covers the Python crackers' fixed class
  order and the GUI's four classes. `CppAlphabet` covers the C++ scan, which
  appends classes in first-occurrence order, either as blocks or punctuation
  one character at a time.
- **Keyspace decoding.** `Keyspace` holds big-endian decoding (`int_to_prefix`,
  `int_to_str_batch`, `itertools.product`) and little-endian decoding (the
  C++ suffix loops and `generate_prefixes`). Both are bijections on [0, m^n).
- **Work partitioning.** `Partition` holds the Python chunks of ceil(n/W),
  the C++ index ranges and prefix slices, and the GPU windows. All of them
  tile their input. `Range`/`RangesTile` and `Windows`/`WindowsTile` state
  that tiling on plain index lists and stand alone: the range crackers'
  model splits the prefixes with `Parts`, and the GPU model steps its
  windows with `WindowEnd` and `BoundaryWindowEnd`.
- **Workers and coordinators.** `Search` defines the reference search: one
  scan of a candidate list (`Evaluate`) and the coordinators' fold of worker
  reports (`Aggregate`). Each cracker's worker and stratum loop is an
  imperative method proved equal to that reference: `CpuCracker`,
  `FlagCracker`, `GuiCracker`, `CppRange` (both range crackers), `CppList`,
  `GpuBatches`/`GpuCracker` and `GpuSingle`. Each is also proved against a
  closed form: a word over a charset without repeats is found after all
  shorter candidates plus its rank plus one guess. Anything else exhausts
  the keyspace: m + m^2 + ... + m^L guesses, or m^|t| for gpu_cracker.py,
  which searches the target's length alone (`GpuSingle`).
- **Smaller pieces.** `GpuLog` holds the collision-free log file name.
  `Strength` holds the class flags, score, charset size, verdict and
  suggestions of the strength check.

Threads are modelled one at a time, in thread (or chunk) order. This is the
order in which `map_async` returns results and in which the C++ threads add
to their shared counter when they do not overlap. In password_cracker.py
and the C++ crackers, a worker that starts after the match sees the shared
`found` flag set and does nothing. password_cracker_CPU.py and
gui_cracker.py have no such flag: their later workers run in full, and the
result loop stops before it reaches their reports. Clocks, GPU memory, the
file system and user input are parameters.

## Model

| member | source | states |
|---|---|---|
| Keyspace.DecodeBig | c++_cracker_CPU.cpp:31-39 | decoding index i into n symbols with the last position least significant gives n symbols of the charset |
| Keyspace.DecodeLittle | password_cracker_CPU.c++:24-29 | decoding with the first position least significant gives n symbols of the charset |
| Keyspace.Rank | password_cracker_GPU.py:43-45 | the inverse index of a word over the charset lies below m^|s| |
| Keyspace.RankLittle | c++_cracker_CPU.cpp:77-80 | the little-endian inverse index lies below m^|s| |
| Keyspace.IndexOf | password_cracker_GPU.py:46-47 | a symbol's index is its first position in the charset |
| Keyspace.DecodeRank | c++_cracker_CPU.cpp:31-39 | decoding the rank of any word over the charset gives the word back |
| Keyspace.RankDecode | c++_cracker_CPU.cpp:31-39 | over a charset without repeats, the rank of the decoding of an in-range index is that index |
| Keyspace.DecodeBigBijective | c++_cracker_CPU.cpp:31-39 | big-endian decoding is injective on [0, m^n) and reaches every word of length n |
| Keyspace.DecodeLittleBijective | c++_cracker_CPU.cpp:74-80 | little-endian decoding and its rank are inverse on [0, m^n) and on the words of length n |
| Keyspace.LittleIsReversedBig | c++_cracker_CPU.c++:75-80 | the suffix loop's decoding is `int_to_prefix`'s decoding reversed |
| Keyspace.SplitBig | c++_cracker_CPU.cpp:34-37 | the first a symbols of an (a+b)-symbol decoding are the decoding of i / m^b, the last b are the decoding of i |
| Keyspace.DecodeBigFront | c++_cracker_CPU.cpp:34-37 | one more position at the front holds the next base-m digit |
| Keyspace.DecodeLittleSnoc | password_cracker_CPU.c++:26-29 | one more appended symbol is the next base-m digit |
| Keyspace.WrapBig | c++_cracker_CPU.cpp:34-37 | decoding sees the index only modulo m^n |
| Keyspace.DigitBig | password_cracker_GPU.py:43-45 | position p of an n-symbol decoding holds digit n-1-p of the index |
| Keyspace.Extend | password_cracker_CPU.py:31 | one more product step multiplies the number of tuples by m |
| Keyspace.Product | password_cracker_CPU.py:40 | `itertools.product(cs, repeat=n)` holds m^n strings |
| Keyspace.ExtendAt | password_cracker_CPU.py:31 | entry j of a product step is tuple j / m followed by symbol j mod m |
| Keyspace.ProductIsBigEndian | password_cracker_CPU.py:31 | entry i of the n-fold product is the big-endian decoding of i, the order `int_to_str_batch` uses |
| Keyspace.ProductAt | password_cracker_CPU.py:40 | one entry of the product is the big-endian decoding of its index |
| Keyspace.ProductMember | password_cracker_CPU.py:40 | every string of the n-fold product is a word of length n over the charset |
| Keyspace.RankSnoc | password_cracker_GPU.py:43-45 | appending a symbol shifts the rank by one base-m digit |
| Keyspace.IndexOfDistinct | password_cracker_GPU.py:46-47 | in a charset without repeats the index of the symbol at k is k |
| Keyspace.Reverse | c++_cracker_CPU.c++:75-80 | character k of the reversal is character |s|-1-k of s |
| Keyspace.ReverseReverse | c++_cracker_CPU.c++:75-80 | reversing twice gives the string back |
| Arith.Pow | password_cracker_CPU.py:51 | m^e is positive for m > 0 |
| Arith.CeilDiv | password_cracker_CPU.py:41 | `(n + k - 1) // k` is the least multiple count covering n |
| Arith.PowAdd | c++_cracker_CPU.cpp:70-72 | m^(x+y) = m^x * m^y, the size of a stratum as prefixes times suffixes |
| Arith.CeilDivAtMost | c++_cracker_CPU.cpp:133 | when w pieces of size k cover n, `(n + k - 1) / k` is at most w: no more ranges than threads |
| Partition.PrefixLen | password_cracker_CPU.py:54 | the prefix length is 1 or 2, at most the stratum length, leaving at least one suffix symbol beyond length 2 (the same rule as c++_cracker_CPU.cpp:130, c++_cracker_CPU.c++:125, password_cracker_CPU.c++:68) |
| Partition.FlagPrefixLen | password_cracker.py:54 | the prefix length is 2 exactly when the stratum is longer than two and the charset has more than six symbols |
| Partition.Chunks | password_cracker_CPU.py:41-42 | the slices concatenate to the list, none is empty, all but the last hold exactly c elements |
| Partition.ChunksCount | password_cracker_CPU.py:41-42 | there are ceil(n / c) slices |
| Partition.ChunksFitWorkers | password_cracker_CPU.py:41-42 | with c = ceil(n / W) there are at most W chunks |
| Partition.ChunkList | gui_cracker.py:32-34 | the chunking fails (a `range` step of 0) exactly on an empty list; otherwise 1..W chunks concatenating to the list |
| Partition.ChunkProductPrefixes | password_cracker_CPU.py:38-42 | the chunks of the m^k product prefixes: ValueError iff the charset is empty, else at most W chunks of length-k words concatenating to the product |
| Partition.ProductEmpty | password_cracker_CPU.py:40-41 | the product is empty exactly when the charset is |
| Partition.ChunksUniform | password_cracker_CPU.py:42 | chunks of length-k words hold length-k words |
| Partition.ListOf | password_cracker.py:36 | `list(charset)` has one one-symbol string per symbol |
| Partition.ListOfIsProduct | password_cracker.py:35-38 | `list(charset)` equals the one-fold product, so both branches of `chunk_prefixes` agree |
| Partition.ListOfFlatten | gui_cracker.py:32-34 | the GUI's charset slices, each as a list of symbols, list the charset's symbols in order |
| Partition.ChunkFlagPrefixes | password_cracker.py:33-40 | the same chunking over `list(charset)` or the product: ValueError iff the charset is empty, else chunks of the product in order |
| Partition.Slice | password_cracker_CPU.c++:77 | a slice [s, e) holds e - s elements when s < e and none otherwise (the corrected slice) |
| Partition.Parts | password_cracker_CPU.c++:74-77 | one piece per thread |
| Partition.PartsAt | password_cracker_CPU.c++:74-77 | piece t is the slice [t*c, min(t*c + c, n)) |
| Partition.PartsFlatten | password_cracker_CPU.c++:74-77 | the first k pieces concatenate to the first min(k*c, n) elements |
| Partition.PartsCover | password_cracker_CPU.c++:71-77 | with c = ceil(n / T) the T pieces concatenate to the whole list: in order, no gap, no overlap |
| Partition.Range | c++_cracker_CPU.cpp:68 | the indices a `for (i = s; i < e; ++i)` loop visits: exactly the integers of [s, e), in increasing order |
| Partition.RangesTile | c++_cracker_CPU.cpp:133-139 | the thread ranges [t*c, min(t*c + c, P)) list 0..P-1 exactly once, in order |
| Partition.SliceAsWritten | password_cracker_CPU.c++:77 | the vector copy as written succeeds iff start <= end, and then equals the slice |
| Partition.SliceAsWrittenFails | password_cracker_CPU.c++:74-77 | the copy as written fails exactly for the threads whose start t*c passes the prefix count |
| Partition.SliceAsWrittenExample | password_cracker_CPU.c++:71-77 | ten prefixes on eight threads: the chunk is 2 and thread 6 starts at 12, past the end 10 |
| Partition.Windows | password_cracker_GPU.py:92-93 | every GPU window holds 1..B indices |
| Partition.WindowsTile | gpu_cracker.py:42-43 | the windows [s, s + min(B, total - s)) tile [0, total) in order with no gap or overlap |
| Search.FirstIndex | password_cracker_GPU.py:112-113 | the first matching row: absent iff the target is not among the rows, else the least index holding it |
| Search.Evaluate | password_cracker_CPU.py:22-36 | the scan finds t iff t is a candidate, with attempts its 1-based first position; otherwise all candidates are counted |
| Search.EvaluateFound | password_cracker_CPU.py:33-35 | a first match at position k is reported with k + 1 attempts |
| Search.EvaluateConcat | password_cracker_CPU.py:22-35 | scanning a + b stops in a when a holds t, otherwise counts all of a and goes on in b |
| Search.AggregateSplit | password_cracker_CPU.py:78-82 | after reports without a truthy guess, the fold has added all their attempts and continues |
| Search.Aggregate | password_cracker_CPU.py:78-82 | definition of the result loop: the first report that found the target decides, with the attempts of all reports up to it; tied to the coordinators by AggregateEvaluations, StrataSpace and FoldResults |
| Search.AggregateFrom | password_cracker_CPU.py:78-82 | one fold step: a truthy report decides, otherwise its attempts are added |
| Search.FoldStep | password_cracker_CPU.py:78-82 | the running total plus the fold of the rest is the whole fold, before and after one report |
| Search.FoldedStep | c++_cracker_CPU.cpp:68-74 | a thread that starts after the match adds nothing; otherwise its report moves the fold one thread on |
| Search.FoldedDone | c++_cracker_CPU.cpp:129 | after all threads, the found flag and counter are the fold of the thread reports |
| Search.FlattenConcat | password_cracker_CPU.py:55-58 | concatenating two lists of chunks concatenates their contents |
| Search.AggregateEvaluations | password_cracker_CPU.py:78-82 | folding the reports of workers on consecutive parts equals one scan of all parts |
| Search.Suffixes | password_cracker_CPU.py:31 | a suffix order lists m^n suffixes |
| Search.SuffixesUniform | password_cracker_CPU.py:31 | every suffix has the requested length |
| Search.ProductUniform | password_cracker_CPU.py:40 | every product word has length k |
| Search.LittleProductUniform | password_cracker_CPU.c++:48-55 | every little-endian prefix has length k |
| Search.Block | password_cracker_CPU.py:31-32 | one prefix followed by each suffix gives one guess per suffix |
| Search.Cross | password_cracker_CPU.py:22-35 | a worker builds |prefixes| * |suffixes| guesses, the count it reports on a miss |
| Search.CrossConcat | password_cracker_CPU.py:55-56 | the guesses of two prefix lists one after the other are those of their concatenation |
| Search.CrossFlatten | password_cracker_CPU.py:55-58 | workers on consecutive chunks build exactly the guesses of the whole prefix list, in order |
| Search.CrossSnoc | password_cracker_CPU.py:22-35 | one more prefix adds its block of guesses at the end |
| Search.CrossHit | password_cracker_CPU.py:31-35 | a first match at suffix j of prefix i is reported after all earlier guesses plus j + 1 |
| Search.CrossMiss | password_cracker_CPU.py:31-35 | a prefix none of whose suffixes matches adds |suffixes| attempts and no match |
| Search.PrefixStep | password_cracker_CPU.py:22-35 | after prefixes that missed, a hit within one prefix's block settles the scan of the whole cross product, a miss extends the missed part by |ss| attempts |
| Search.CrossAt | password_cracker_CPU.py:31-32 | guess i is prefix i / |ss| followed by suffix i mod |ss| |
| Search.CrossProduct | password_cracker_CPU.py:40 | length-k products followed by length-j products are the length-(k+j) product, in order |
| Search.CrossProductAt | password_cracker_CPU.py:31-32 | one guess of the crossed products is the matching product entry |
| Search.CrossProductSplit | password_cracker_CPU.py:54-55 | a stratum split at the prefix length is the whole stratum |
| Search.EvaluateBlock | password_cracker_CPU.py:31-35 | a prefix's block holds t iff t starts with the prefix and its rest is a suffix, at the rest's position |
| Search.EvaluateCross | password_cracker_CPU.py:17-36 | closed form of a worker: found in the block of the first prefix that starts t, at the position of its rest; else every guess counted |
| Search.EvaluateCrossLast | password_cracker_CPU.py:17-36 | the closed form of the cross-product scan carries over from all prefixes but the last to all of them |
| Search.CrossHitClosed | password_cracker_CPU.py:17-36 | prefix number r1 and suffix number r2 give r1 * |ss| + r2 + 1 attempts |
| Search.CrossMissClosed | password_cracker_CPU.py:17-36 | a target too short, or with an unknown prefix or suffix, costs every guess |
| Search.AggregateCross | password_cracker_CPU.py:78-82 | the fold of the chunk workers' reports is the scan of all prefixes' guesses |
| Search.StratumScan | password_cracker_CPU.py:53-82 | one stratum's folded worker reports are the scan of the whole stratum in lexicographic order |
| Search.EmptyNotInProduct | password_cracker_CPU.py:80 | no string of a non-empty stratum is empty, so every match is truthy |
| Search.AggregateAfterMisses | password_cracker_CPU.py:53-82 | strata that miss after m^l guesses each, then a last stratum: its guess after all their attempts |
| Search.AggregateUpToHit | password_cracker.py:77-81 | reports that agree up to the first truthy one fold alike |
| Search.SpacePrefix | password_cracker_CPU.py:53 | the candidates up to length l start the candidates up to any longer length |
| Search.EvaluateSpaceFound | password_cracker_CPU.py:83-89 | a longer search finds what a shorter one finds, at the same count |
| Search.EvaluatePrefix | password_cracker_CPU.py:83-89 | a scan that finds the target within its first n candidates reports what the scan of those n alone reports |
| Search.EvaluateSpaceStep | password_cracker_CPU.py:53-82 | after a miss, one more stratum adds its own scan to the count |
| Search.EvaluateProduct | password_cracker_CPU.py:31-35 | in the product of length n a word over the charset is found at its rank + 1; anything else after m^n guesses |
| Search.EvaluateLittleProduct | password_cracker_CPU.c++:22-38 | the same for the little-endian order with the little-endian rank |
| Search.SpaceLength | password_cracker_CPU.py:51 | there are m + m^2 + ... + m^L candidates (`overall_total`) |
| Search.SpaceMember | password_cracker_CPU.py:53 | every candidate is a word over the charset of length 1..L |
| Search.EvaluateSpaceHit | password_cracker_CPU.py:53-89 | a word of length 1..L is found after all shorter words plus its rank plus one |
| Search.EvaluateSpaceMiss | password_cracker_CPU.py:91-92 | anything else is not found after all m + ... + m^L guesses |
| Search.EvaluateSpace | password_cracker_CPU.py:53-92 | the whole search in closed form, hit and miss |
| Search.Strata | password_cracker_CPU.py:53 | one report per stratum 1..L |
| Search.Stratum | password_cracker_CPU.py:53-82 | definition: the report of length l is the scan of the words of that length in product order; its fold over lengths is StrataSpace |
| Search.Space | password_cracker_CPU.py:51-53 | definition: the candidates of lengths 1..L, shorter first; its size is SpaceLength, its members SpaceMember |
| Search.MissesStep | password_cracker_CPU.py:83-89 | one more candidate that misses extends the missed prefix of a scan by one |
| Search.StrataParts | password_cracker_CPU.py:53 | one candidate list per stratum 1..L |
| Search.StrataPartsFlatten | password_cracker_CPU.py:53 | the strata in increasing length are the whole candidate list |
| Search.StrataSpace | password_cracker_CPU.py:53-89 | folding strata reports as the coordinators do is one scan of the keyspace of lengths 1..L |
| Alphabet.CharRange | password_cracker_CPU.py:121 | a run of n consecutive code points has n characters |
| Alphabet.CharRangeMember | password_cracker_CPU.py:121 | a character is in a run iff its code point lies in it |
| Alphabet.CharRangeDistinct | password_cracker_CPU.py:121 | a run repeats no character |
| Alphabet.ClassRanges | password_cracker_CPU.py:121 | `ascii_lowercase`, `ascii_uppercase`, `digits` and `punctuation` are their ASCII code runs |
| Alphabet.ClassMembers | gui_cracker.py:11-17 | membership in each class string is the ASCII classification |
| Alphabet.ClassesDistinct | password_cracker_CPU.py:121 | no class string repeats a character |
| Alphabet.PunctuationDistinct | password_cracker_CPU.py:121 | the four runs of `string.punctuation` are disjoint |
| Alphabet.DistinctConcat | password_cracker_CPU.py:121 | joining disjoint repeat-free strings gives a repeat-free string |
| Alphabet.CppPunctuationIsPunct | c++_cracker_CPU.cpp:187 | every character of the C++ punctuation block is ASCII punctuation |
| Alphabet.CppPunctuationMember | c++_cracker_CPU.cpp:187 | the block holds all punctuation except the double quote, the backslash and the backquote |
| Alphabet.StripLeft | password_cracker_CPU.py:120 | `lstrip` removes exactly the leading white space |
| Alphabet.StripRight | password_cracker_CPU.py:120 | `rstrip` removes exactly the trailing white space |
| Alphabet.Strip | password_cracker_CPU.py:120 | the stripped target neither starts nor ends with white space |
| Alphabet.StripSlice | password_cracker_CPU.py:120 | the stripped target is a slice of the input with only white space cut off either end |
| Alphabet.PyIsSpace | password_cracker_CPU.py:120 | definition: the characters `str.isspace` accepts, which `strip` removes; used by StripLeft, StripRight and StripSlice |
| Alphabet.JoinPresentMember | password_cracker_CPU.py:121 | a character is in the join iff some class holding it occurs in the target |
| Alphabet.JoinPresent | password_cracker_CPU.py:121 | definition: the join of the classes that occur in the target, in class order; membership by JoinPresentMember, distinctness by JoinPresentDistinct |
| Alphabet.JoinPresentDistinct | password_cracker_CPU.py:121 | disjoint repeat-free classes join to a repeat-free charset |
| Alphabet.PythonClassesIndex | password_cracker_CPU.py:121 | a character is in class i iff its class index is i |
| Alphabet.PythonClassesDisjoint | password_cracker_CPU.py:121 | the five Python classes, and the GUI's four, are disjoint and repeat-free |
| Alphabet.CanonicalCharset | password_cracker_CPU.py:121 | definition: JoinPresent over lower case, upper case, digits, punctuation and the blank; proved by the four CanonicalCharset lemmas below |
| Alphabet.CanonicalCharsetMember | password_cracker_CPU.py:121 | a character is in the charset iff its class occurs in the target |
| Alphabet.CanonicalCharsetCovers | password_cracker.py:118 | the target is a word over its charset iff it is all printable ASCII |
| Alphabet.CanonicalCharsetEmpty | password_cracker_CPU.py:121 | the charset is empty iff no character of the target is printable ASCII |
| Alphabet.CanonicalCharsetDistinct | password_cracker_CPU.py:121 | the charset repeats no character |
| Alphabet.DetectCharset | gui_cracker.py:9-19 | `detect_charset` appends lower, upper, digits and punctuation, each iff the password has a member of it |
| Alphabet.JoinFour | gui_cracker.py:10-19 | four guarded appends are the join of four classes in their order |
| Alphabet.PresentByClass | gui_cracker.py:11-15 | the `islower`/`isupper`/`isdigit` tests agree with membership in the class strings |
| Alphabet.GuiCharsetMember | gui_cracker.py:9-19 | a character is in the GUI charset iff it is in one of the four classes and that class occurs |
| Alphabet.GuiCharsetNoBlank | gui_cracker.py:9-19 | the GUI charset never holds the blank, so a password with a blank is never a word over it |
| Alphabet.ClassOfPrintable | password_cracker_CPU.py:121 | the printable characters are exactly those of some class, the blank alone in the last |
| Alphabet.GuiCharsetCovers | gui_cracker.py:9-19 | a password is a word over its GUI charset iff it is printable ASCII without a blank |
| Alphabet.GuiCharsetAt | gui_cracker.py:9-19 | one password character is in the GUI charset iff printable and not the blank |
| Alphabet.GuiCharsetDistinct | gui_cracker.py:9-19 | the GUI charset repeats no character |
| CppAlphabet.DetectCppCharset | c++_cracker_CPU.cpp:182-189 | the scan loop over the target computes the C++ charset (block or per-character punctuation) |
| CppAlphabet.CppStep | c++_cracker_CPU.cpp:184-188 | definition: one pass of the scan loop, the five guarded appends; proved by StepKeeps, StepBlock, StepPunctChar, StepPunctBlock and StepGrows |
| CppAlphabet.CppCharset | c++_cracker_CPU.cpp:183-189 | definition: the scan over the whole target; proved by CppCharsetMember, CppCharsetDistinct, CppCharsetCovers and CppCharsetEmpty |
| CppAlphabet.ContributedSnoc | c++_cracker_CPU.cpp:183-189 | one more target character contributes what it contributes and nothing else |
| CppAlphabet.ContainsAppend | c++_cracker_CPU.cpp:187 | a block found in the charset is still found after appends |
| CppAlphabet.ContainsSuffix | c++_cracker_CPU.cpp:187 | an appended block is found |
| CppAlphabet.ContainsFirst | c++_cracker_CPU.cpp:187 | a found block's first character is in the charset |
| CppAlphabet.ContributorClass | c++_cracker_CPU.cpp:184-188 | only a character of a class contributes members of that class |
| CppAlphabet.BlockSeen | c++_cracker_CPU.cpp:184-186 | a letter or digit block present in the charset was contributed whole |
| CppAlphabet.AppendBlock | c++_cracker_CPU.cpp:184-187 | appending a new block keeps the scan state |
| CppAlphabet.KeepCharset | c++_cracker_CPU.cpp:184-188 | a character that contributes nothing new keeps the scan state |
| CppAlphabet.StepKeeps | c++_cracker_CPU.cpp:184-188 | one loop pass keeps the scan state |
| CppAlphabet.StepBlock | c++_cracker_CPU.cpp:184-186 | a letter or digit appends its block unless a member is present already |
| CppAlphabet.StepPunctChar | c++_cracker_CPU.c++:162 | a punctuation character is appended by itself unless present |
| CppAlphabet.StepPunctBlock | c++_cracker_CPU.cpp:187 | punctuation appends the block unless the block occurs already |
| CppAlphabet.ScanStateHolds | c++_cracker_CPU.cpp:183-189 | after any prefix of the target the charset holds exactly the contributed characters, once each |
| CppAlphabet.CppCharsetMember | c++_cracker_CPU.cpp:183-189 | a character is in the charset iff a target character contributes it |
| CppAlphabet.CppCharsetDistinct | c++_cracker_CPU.c++:159-163 | the charset holds no character twice |
| CppAlphabet.CppCharsetCovers | c++_cracker_CPU.cpp:183-189 | the target is a word over its charset iff every character is findable (a tab adds a blank but is never tried) |
| CppAlphabet.CppCharsetEmpty | c++_cracker_CPU.cpp:191-197 | the charset is empty iff no target character is recognised |
| CppAlphabet.CppCharsetGrows | c++_cracker_CPU.cpp:183-189 | the scan only appends: the charset of a prefix of the target is a prefix of the charset |
| CppAlphabet.StepGrows | c++_cracker_CPU.cpp:184-188 | one pass of the loop body only appends to the charset |
| CppAlphabet.FirstOccurrenceOrder | c++_cracker_CPU.cpp:184-186 | classes stand in first-occurrence order: "1a" gives digits then lower case |
| CppAlphabet.CppPunctuationDistinct | c++_cracker_CPU.cpp:187 | the punctuation block holds no character twice |
| CpuCracker.Worker | password_cracker_CPU.py:17-36 | the worker's report is the scan of its prefixes each followed by every suffix in `itertools` order |
| CpuCracker.FoldResults | password_cracker_CPU.py:78-82 | the result loop adds attempts up to and including the first truthy report and keeps its guess |
| CpuCracker.RunStratum | password_cracker_CPU.py:56-58 | report q is the scan of chunk q |
| CpuCracker.CrackStratum | password_cracker_CPU.py:54-82 | a stratum fails iff the charset is empty, else reports the scan of all strings of that length |
| CpuCracker.ParallelCrack | password_cracker_CPU.py:44-92 | fails iff the charset is empty (and there is a stratum), else is the fold of strata 1..L |
| CpuCracker.SearchOwnCharset | password_cracker_CPU.py:121-124 | over its own charset a target is found after the shorter candidates plus its rank plus one, else all candidates are counted |
| CpuCracker.CrackTarget | password_cracker_CPU.py:117-128 | the script fails iff the stripped target is non-empty with no printable character; otherwise a non-empty word over its own charset is found after the shorter candidates plus its rank plus one, anything else exhausts m + ... + m^|t| |
| FlagCracker.SharedFlag.constructor | password_cracker.py:52 | the shared flag starts at 0 |
| FlagCracker.Worker | password_cracker.py:17-31 | with the flag set on entry: nothing and no attempt; otherwise the scan of its guesses, and the flag set exactly on a match |
| FlagCracker.ScanCombos | password_cracker.py:23-30 | the suffixes of one prefix in order, counted, until one completes the target |
| FlagCracker.ScanFlagPrefix | password_cracker.py:20-31 | one prefix and all its combinations with the flag clear, after earlier prefixes that missed: a hit is the worker's whole answer, a miss extends the missed part by one block of attempts |
| FlagCracker.Reports | password_cracker.py:56-58 | one flag-free report per chunk |
| FlagCracker.RunStratum | password_cracker.py:56-81 | the reports fold like the flag-free reports, and the flag is left set iff the fold holds a match |
| FlagCracker.FlagStep | password_cracker.py:21-30 | one more worker keeps the reports in step with the flag-free ones up to the first match |
| FlagCracker.FlagFold | password_cracker.py:77-81 | reports kept in step fold alike, and the flag is set iff the fold is truthy |
| FlagCracker.CrackStratum | password_cracker.py:54-81 | a stratum fails iff the charset is empty, else reports the scan of the stratum; no match leaves the flag clear |
| FlagCracker.ParallelCrack | password_cracker.py:42-90 | fails iff the charset is empty, else is the fold of strata 1..L |
| FlagCracker.CrackTarget | password_cracker.py:115-121 | the script: fails iff the stripped target is non-empty with no printable character; otherwise the same closed form as password_cracker_CPU.py |
| GuiCracker.Worker | gui_cracker.py:21-30 | the report is the scan of each chunk character followed by every suffix of length `length - 1` |
| GuiCracker.PrefixLists | gui_cracker.py:55-56 | the charset slices, as prefix lists, list the charset's symbols |
| GuiCracker.CrackStratum | gui_cracker.py:55-78 | fails iff the charset is empty; a stop while polling gives no report; otherwise the scan of the stratum |
| GuiCracker.RunWorkers | gui_cracker.py:58-59 | report q is the scan of slice q |
| GuiCracker.ParallelCrack | gui_cracker.py:43-88 | fails iff the charset is empty and the stop did not come first; stopped iff the stop takes effect; otherwise the fold of strata 1..L |
| GuiCracker.CrackSpec | gui_cracker.py:43-88 | definition of the run's answer: a failure iff the charset is empty and no stop came first; a stop iff it takes effect; otherwise the fold of lengths 1..L |
| GuiCracker.Progress | gui_cracker.py:50-85 | definition of the loop state: lengths 1..done missed, no stop seen, attempts so far |
| GuiCracker.CrackNext | gui_cracker.py:50-85 | one length: either the run ends with the answer CrackSpec describes, or the length missed and the run goes on with its attempts added |
| GuiCracker.StopClosed | gui_cracker.py:51-66 | a stop seen at length done + 1 after lengths that missed is the answer CrackSpec describes |
| GuiCracker.FailureClosed | gui_cracker.py:55 | the empty charset raising at length 1 is the answer CrackSpec describes |
| GuiCracker.DoneClosed | gui_cracker.py:80-88 | lengths 1..L all searched with no stop seen: the fold is the answer CrackSpec describes |
| GuiCracker.StopEffect | gui_cracker.py:51-53 | a stop seen before a stratum that follows only misses takes effect |
| GuiCracker.NoStopAfter | gui_cracker.py:80-87 | a stop not seen before the run ended never takes effect |
| GuiCracker.StopTakesEffect | gui_cracker.py:51-66 | definition: a stop at some length takes effect iff no shorter length found the target; proved by StopEffect and NoStopAfter |
| GuiCracker.SearchGuiCharset | gui_cracker.py:150-151 | over the GUI charset a printable password without a blank is found after the shorter candidates plus its rank plus one |
| GuiCracker.StartCracking | gui_cracker.py:140-166 | an empty stripped entry is refused; otherwise the run in closed form |
| GuiCracker.CrackClosed | gui_cracker.py:150-161 | the run over the password's own charset and length in closed form |
| CppRange.IntToPrefix | c++_cracker_CPU.cpp:31-39 | `int_to_prefix` is the big-endian decoding of the index |
| CppRange.AppendSuffix | c++_cracker_CPU.cpp:75-80 | the guess is the prefix followed by the little-endian decoding of i |
| CppRange.ScanSuffixes | c++_cracker_CPU.cpp:74-110 | suffixes in order until the target: 1-based count of the match, or every suffix |
| CppRange.TrySuffix | c++_cracker_CPU.cpp:74-93 | one guess matches iff the prefix followed by suffix i in little-endian order is the target |
| CppRange.ScanPrefix | c++_cracker_CPU.cpp:68-110 | one prefix index: its big-endian prefix followed by the suffixes until the target |
| CppRange.Worker | c++_cracker_CPU.cpp:61-113 | with `found` set: no attempt; otherwise the scan of prefixes start..end-1 each followed by every suffix |
| CppRange.ScanRangePrefix | c++_cracker_CPU.cpp:68-94 | one prefix of the thread's range and all its suffixes, after earlier prefixes of the range that missed: a hit is the worker's whole answer, a miss extends the missed part by one block of attempts |
| CppRange.RangeStrata | c++_cracker_CPU.cpp:129 | one report per stratum |
| CppRange.RunStratum | c++_cracker_CPU.cpp:129-148 | a stratum reports the scan of its big-endian prefixes crossed with little-endian suffixes |
| CppRange.RunThreads | c++_cracker_CPU.cpp:133-148 | the thread loop reports the fold of the thread reports |
| CppRange.RunThread | c++_cracker_CPU.cpp:137-144 | thread t on [t*c, min(t*c + c, P)) moves the fold one thread on |
| CppRange.ThreadStep | c++_cracker_CPU.cpp:137-144 | one more thread, which reports or finds `found` set and attempts nothing, moves the fold of the thread reports from thread t to t + 1 |
| CppRange.ThreadReports | c++_cracker_CPU.cpp:137-139 | one report per thread |
| CppRange.Reports | c++_cracker_CPU.cpp:137-144 | one report per piece |
| CppRange.ReportsAt | c++_cracker_CPU.cpp:137-144 | report q is the scan of piece q |
| CppRange.ThreadReportAt | c++_cracker_CPU.cpp:138-139 | thread q reports the scan of its index range |
| CppRange.ThreadReportsFold | c++_cracker_CPU.cpp:133-139 | the thread reports fold to the scan of all prefixes |
| CppRange.ParallelBruteForce | c++_cracker_CPU.cpp:115-154 | strata while `found` is unset: the fold of strata 1..L |
| CppRange.OverSplit | c++_cracker_CPU.cpp:76-78 | a word is over the charset iff its prefix and suffix are |
| CppRange.RangeStratumHit | c++_cracker_CPU.cpp:68-110 | a word of the stratum's length is found at its range rank plus one |
| CppRange.RangeStratum | c++_cracker_CPU.cpp:129-148 | definition: the words of length l as big-endian prefixes of length PrefixLen(l), each followed by every little-endian suffix; closed form by RangeStratumClosed |
| CppRange.CrossProductHit | c++_cracker_CPU.cpp:68-110 | prefix rank times m^n plus suffix rank plus one |
| CppRange.RangeStratumMiss | c++_cracker_CPU.cpp:68-110 | anything else costs all m^l guesses |
| CppRange.StratumSize | c++_cracker_CPU.cpp:131 | m^k prefixes times m^(l-k) suffixes make m^l guesses |
| CppRange.RangeStratumClosed | c++_cracker_CPU.cpp:129-148 | the stratum in closed form |
| CppRange.MixedBound | c++_cracker_CPU.cpp:74-80 | two mixed-radix digits stay below the product of the radices |
| CppRange.RangeRankBound | c++_cracker_CPU.cpp:68-80 | the range rank lies below m^|t| |
| CppRange.RangeRank | c++_cracker_CPU.cpp:68-80 | definition: where the stratum meets the target; below m^|t| by RangeRankBound |
| CppRange.RangeRankSplit | c++_cracker_CPU.cpp:68-80 | the range rank is the prefix's big-endian rank times m^(|t|-k) plus the suffix's little-endian rank, both parts words over the charset |
| CppRange.RangeSearch | c++_cracker_CPU.cpp:115-154 | the run in closed form: found after all shorter candidates plus the range rank plus one, else all candidates |
| CppRange.RangeStrataClosed | c++_cracker_CPU.cpp:129 | every stratum up to the target's length is in closed form |
| CppRange.AggregateClosed | c++_cracker_CPU.cpp:129 | closed-form strata fold to the closed form of the run |
| CppRange.CrackBlock | c++_cracker_CPU.cpp:177-201 | exits with status 1 iff no character is recognised; else found iff every character is findable with the block, in closed form |
| CppRange.CrackPerChar | c++_cracker_CPU.c++:151-168 | found iff every character is findable character by character, in closed form; no empty-charset check |
| CppList.GeneratePrefixes | password_cracker_CPU.c++:43-58 | `generate_prefixes` lists the little-endian decodings of 0..m^k - 1 |
| CppList.Worker | password_cracker_CPU.c++:14-41 | with `found` set: no attempt; otherwise the scan of its prefixes each followed by every little-endian suffix |
| CppList.SliceUniform | password_cracker_CPU.c++:77 | a slice of length-k prefixes holds length-k prefixes |
| CppList.RunThread | password_cracker_CPU.c++:74-80 | thread t on its slice moves the fold one thread on |
| CppList.RunThreads | password_cracker_CPU.c++:71-84 | the thread loop reports the fold of the thread reports |
| CppList.ListStrata | password_cracker_CPU.c++:67 | one report per stratum |
| CppList.RunStratum | password_cracker_CPU.c++:67-85 | a stratum reports the scan of its little-endian prefixes crossed with little-endian suffixes |
| CppList.ParallelBruteForce | password_cracker_CPU.c++:60-97 | strata while `found` is unset: the fold of strata 1..L |
| CppList.CrossLittleHit | password_cracker_CPU.c++:18-38 | prefix rank times m^n plus suffix rank plus one |
| CppList.ScanListPrefix | password_cracker_CPU.c++:18-38 | one prefix and all its suffixes after earlier prefixes that missed: a hit is the worker's whole answer, a miss extends the missed part by one block of attempts |
| CppList.ListStratumHit | password_cracker_CPU.c++:67-85 | a word of the stratum's length is found at its list rank plus one |
| CppList.ListStratum | password_cracker_CPU.c++:67-85 | definition: the words of length l as little-endian prefixes, each followed by every little-endian suffix; closed form by ListStratumClosed |
| CppList.StratumSize | password_cracker_CPU.c++:46 | m^k prefixes times m^(l-k) suffixes make m^l guesses |
| CppList.ListStratumMiss | password_cracker_CPU.c++:67-85 | anything else costs all m^l guesses |
| CppList.LittleSplitMiss | password_cracker_CPU.c++:18-38 | a non-word is too short, or has an unknown prefix or an unknown suffix |
| CppList.ListStratumClosed | password_cracker_CPU.c++:67-85 | the stratum in closed form |
| CppList.ListRankBound | password_cracker_CPU.c++:22-29 | the list rank lies below m^|t| |
| CppList.ListRank | password_cracker_CPU.c++:22-29 | definition: where the stratum meets the target; below m^|t| by ListRankBound |
| CppList.ListRankSplit | password_cracker_CPU.c++:22-29 | the list rank is the prefix's little-endian rank times m^(|t|-k) plus the suffix's little-endian rank, both parts words over the charset |
| CppList.ListSearch | password_cracker_CPU.c++:60-97 | the run in closed form: found after all shorter candidates plus the list rank plus one, else all candidates |
| CppList.ListStrataClosed | password_cracker_CPU.c++:67 | every stratum up to the target's length is in closed form |
| CppList.AggregateListClosed | password_cracker_CPU.c++:67 | closed-form strata fold to the closed form of the run |
| CppList.CrackList | password_cracker_CPU.c++:99-118 | found iff every character is findable character by character, in closed form |
| GpuBatches.Digit | password_cracker_GPU.py:44 | a base-m digit lies below m |
| GpuBatches.ShiftedStep | password_cracker_GPU.py:44-45 | one more division drops one more digit, and the remainder is that digit |
| GpuBatches.DigitMatrix | password_cracker_GPU.py:41-45 | column p of row k holds digit length-1-p of start + k |
| GpuBatches.IntToStrBatch | password_cracker_GPU.py:38-48 | the digit matrix gathered through the charset: row k is the big-endian decoding of start + k |
| GpuBatches.CheckWindow | password_cracker_GPU.py:95-97 | the first matching row of a window of the stratum |
| GpuBatches.WindowEnd | password_cracker_GPU.py:101 | the counter after the window holding index i lies in (i, i + B] |
| GpuBatches.BoundaryWindowEnd | password_cracker_GPU.py:92 | every index of a window ends at that window's end |
| GpuBatches.BatchScan | password_cracker_GPU.py:92-119 | windows of B: a hit is counted up to its window's end, a miss counts all; a step below one searches nothing |
| GpuBatches.BatchStratum | password_cracker_GPU.py:92-119 | definition: the words of length l in lexicographic order, searched in windows of b; closed form by BatchStratumClosed |
| GpuBatches.RowsAreWindow | password_cracker_GPU.py:95 | a decoded batch is the stratum's window at its start |
| GpuBatches.WindowEndIn | password_cracker_GPU.py:93 | a window's indices end at min(s + B, total) |
| GpuBatches.WindowHit | password_cracker_GPU.py:112-119 | a first match in window s reports the counter at that window's end |
| GpuBatches.WindowMiss | password_cracker_GPU.py:101 | a window without the target extends the part known to miss |
| GpuBatches.BatchStratumClosed | password_cracker_GPU.py:89-119 | a word of the stratum is reported at the end of the window holding its rank; anything else after m^l |
| GpuCracker.DynamicBatchSize | password_cracker_GPU.py:27-36 | a dynamic size in [1, 2000000]: the guesses that fit clamped, or 500000 when the query raises |
| GpuCracker.MaxGuesses | password_cracker_GPU.py:32 | definition: 85% of the free bytes over two bytes per character; bounds by DynamicBatchFits and DynamicBatchMonotone |
| GpuCracker.DynamicBatchFits | password_cracker_GPU.py:30-33 | unless clamped up to one, the batch at two bytes per character fits in the free memory |
| GpuCracker.DynamicBatchMonotone | password_cracker_GPU.py:32-33 | more free memory never gives a smaller batch |
| GpuCracker.BatchFor | password_cracker_GPU.py:91 | a falsy batch size selects the dynamic size; any other is used as given |
| GpuCracker.BroadcastMatch | password_cracker_GPU.py:96 | the comparison as written under broadcasting: raises iff the lengths differ and neither is one |
| GpuCracker.BroadcastMatchesRepeats | password_cracker_GPU.py:96 | as written, a one-symbol row matches every target of two or more copies of it |
| GpuCracker.BroadcastRaises | password_cracker_GPU.py:96 | as written, a two-symbol row against a target of three or more symbols raises |
| GpuCracker.BroadcastExamples | password_cracker_GPU.py:96 | "a" matches "aa"; "ab" against "abc" raises |
| GpuCracker.Runs | password_cracker_GPU.py:89-91 | one report per stratum |
| GpuCracker.Fits | password_cracker_GPU.py:98-100 | definition: the out-of-memory test on the first, largest window of a length against `capacity`; used by AllFitFlags |
| GpuCracker.Run | password_cracker_GPU.py:90-119 | definition: one length, out of memory at its first window or searched in windows of b; closed form by RunClosed |
| GpuCracker.FoldRuns | password_cracker_GPU.py:89-121 | definition: the loop over lengths, ended by a failure or a match; proved by FoldRunsStep and FoldStrata |
| GpuCracker.SearchStratum | password_cracker_GPU.py:90-119 | out of memory iff the first window does not fit; otherwise the windowed scan with an exact comparison |
| GpuCracker.AddAttemptsTwice | password_cracker_GPU.py:101 | adding two stretches of attempts one after the other adds their sum |
| GpuCracker.CrackLength | password_cracker_GPU.py:90-91 | the loop body reports stratum l's run |
| GpuCracker.FoldRunsStep | password_cracker_GPU.py:89-121 | a failure or a match ends the run; otherwise the attempts add up |
| GpuCracker.CrackStrata | password_cracker_GPU.py:89-121 | the strata loop is the fold of the strata reports |
| GpuCracker.GpuBruteForceCrack | password_cracker_GPU.py:80-121 | `gpu_brute_force_crack` is the fold of strata 1..L with their batch sizes |
| GpuCracker.FoldStrata | password_cracker_GPU.py:89-121 | strata that miss or run out of memory, then a last one: the first failure or the last report after all shorter candidates |
| GpuCracker.RunClosed | password_cracker_GPU.py:90-119 | one stratum in closed form |
| GpuCracker.RunsAreClosed | password_cracker_GPU.py:89-119 | with a non-negative batch size every report is in closed form |
| GpuCracker.AllFitFlags | password_cracker_GPU.py:98-100 | some stratum does not fit iff a flag is false |
| GpuCracker.ClosedReportsShape | password_cracker_GPU.py:89-119 | closed-form reports have the shape the fold expects |
| GpuCracker.FoldClosedReports | password_cracker_GPU.py:89-121 | closed-form reports fold to the failure of the first stratum that does not fit, or to the closed form |
| GpuCracker.RunsClosed | password_cracker_GPU.py:80-121 | the run: out of memory iff some stratum does not fit, else found at the end of the window holding its rank after all shorter candidates |
| GpuCracker.FoldNothing | password_cracker_GPU.py:92 | reports that searched nothing fold to nothing |
| GpuCracker.RunsNegative | password_cracker_GPU.py:92 | a negative batch size searches and reports nothing |
| GpuCracker.CrackTarget | password_cracker_GPU.py:123-137 | the script: 1000000 for a blank entry; a printable password is found in closed form unless a stratum does not fit; a negative size searches nothing |
| GpuLog.DigitChar | password_cracker_GPU.py:59 | a decimal digit character |
| GpuLog.Decimal | password_cracker_GPU.py:59 | `str(count)`: decimal digits without leading zero |
| GpuLog.DecimalInjective | password_cracker_GPU.py:59 | different counts have different decimal forms |
| GpuLog.LogStem | password_cracker_GPU.py:54 | the name starts with `log_` |
| GpuLog.LogName | password_cracker_GPU.py:54-59 | the name tried at a count is the stem, then `.log` or `_<count>.log` |
| GpuLog.LogNamesDistinct | password_cracker_GPU.py:54-59 | different counts give different names |
| GpuLog.LogFileName | password_cracker_GPU.py:56-60 | the name chosen is free, every smaller count was taken, and at most |existing| names were skipped |
| GpuLog.SubsetCard | password_cracker_GPU.py:57 | a subset is no larger than its superset |
| GpuSingle.BatchBruteForce | gpu_cracker.py:34-71 | the windowed search of the single stratum of length |target| with an exact comparison |
| GpuSingle.Script | gpu_cracker.py:8-74 | a printable target is found at the end of the window holding its rank; the empty target is matched but reported not found; anything else exhausts m^L |
| Strength.ClassCount | password_generator.py:72-75 | at most four classes count |
| Strength.LengthBonusAsWritten | password_generator.py:76 | the bonus as written is 1 or 2 |
| Strength.LengthBonus | password_generator.py:76 | the corrected bonus swaps the two values of the bonus as written (they add up to 3): eight characters or more earn more than as written, fewer earn less |
| Strength.ScoreAsWritten | password_generator.py:70-76 | definition: `sc` as written, the classes present plus the bonus as written; LongerScoresLowerAsWritten |
| Strength.Score | password_generator.py:70-76 | definition: the classes present plus the corrected bonus; monotone by ScoreGrows |
| Strength.Verdict | password_generator.py:77 | definition: the verdict line indexed by min(sc, 5); VerdictNeverError |
| Strength.Suggestions | password_generator.py:78-84 | definition: the hints printed below five; SuggestionsWhenWeak |
| Strength.CheckPass | password_generator.py:68-84 | the flags are the classes present, the score is classes plus the corrected bonus, in 1..6, and the charset size is the sum of the present classes' sizes, at most 94; the program's own `sc` is one below that score for eight characters or more and one above it for fewer |
| Strength.Scan | password_generator.py:70-75 | each flag is raised iff some character is in its list; `sc` counts the raised flags and `cs` adds their lists' sizes, each once |
| Strength.Tally | password_generator.py:72-75 | one guarded line raises the flag once and only its raising counts |
| Strength.ScanStep | password_generator.py:71-75 | one more character raises a flag iff it is in the class |
| Strength.CharsetSizeBound | password_generator.py:3 | 26 + 26 + 32 + 10: the charset size is at most 94 and zero iff no class is present |
| Strength.VerdictNeverError | password_generator.py:77 | the "Error" verdict is unreachable, and a score of five or more is "Very Secure" |
| Strength.SuggestionsWhenWeak | password_generator.py:78-84 | a score below five iff at least one suggestion; each class hint appears iff the score is below five and that class is missing, and the 12-character hint iff the score is below five and the password is shorter than twelve |
| Strength.ClassHints | password_generator.py:78-82 | below five the lower-case hint appears iff lower case is missing and the digit hint iff digits are missing |
| Strength.OtherHints | password_generator.py:78-84 | below five the upper-case hint appears iff upper case is missing, the special hint iff specials are missing, the length hint iff shorter than twelve |
| Strength.HintsDiffer | password_generator.py:80-84 | the five hints are five different lines |
| Strength.HasGrows | password_generator.py:71-75 | a present class stays present as the password grows |
| Strength.ScoreGrows | password_generator.py:76 | with the corrected bonus a longer password never scores lower |
| Strength.OnlyLower | password_generator.py:72 | a lower-case password raises only the lower-case flag |
| Strength.SpecialsArePunct | password_generator.py:3 | every character of S is ASCII punctuation |
| Strength.LongerScoresLowerAsWritten | password_generator.py:76-77 | as written, "abcdefg" scores 3 ("Ok") and "abcdefgh" scores 2 ("Weak") |
| Strength.CheckEntry | password_generator.py:31-33 | a password of 100 characters or more is refused; a shorter one is scored |

## Left out

- Threads, process pools, `map_async`, `Manager().Value`, the C++ atomics and mutexes: workers run one at a time in chunk or thread order. In password_cracker.py and the C++ crackers a worker that starts after the match sees `found` set. Interleavings, where a thread stops mid-way because another found the target, are not modelled.
- All progress, speed and time reporting, ANSI styles, `print_progress`, sleeps, `pool._cache` estimates, and the floating-point `percent` and `speed` are left out. The floating `pow` of the C++ sources is the exact integer `Pow`.
- Integer widths: `size_t`, `uint64` index arrays and `uint8` character arrays are unbounded naturals. Overflow for very large keyspaces is not modelled.
- `thread::hardware_concurrency()` and `cpu_count()` are a parameter required to be positive. A zero thread count in C++ would divide by zero.
- Character classification is the ASCII one. Python's Unicode `islower`/`isupper`/`isdigit` in gui_cracker.py:11-15, and the locale-dependent C classification, are not modelled for non-ASCII characters.
- The C++ `getline` input is a string of `char`. Bytes above 127 are not modelled.
- CuPy arrays are sequences or a Dafny `array2`. Device memory is the parameters `freeMem` (the memory query; `None` when it raises) and `capacity` (the out-of-memory test on a window's bytes).
- GpuCracker.CrackTarget: a non-numeric batch size entry raises in `int()` and is caught at password_cracker_GPU.py:140. That path is not modelled; the entry is an optional integer.
- File writes: every `log_results` body, `latest.log`, and the JSON config read of c++_cracker_CPU.cpp. Only the GPU script's name choice is modelled, over a set of existing names; the Python CPU crackers' loop is the same shape.
- The `progress_interval` setting of c++_cracker_CPU.cpp (read at c++_cracker_CPU.cpp:167) only affects printing, except when it is 0: `attempt_now % progress_interval` at c++_cracker_CPU.cpp:84 is evaluated before `enable_progress`, so the first guess divides by zero, which is undefined behaviour. The model behaves as with a positive interval.
- GpuCracker.MaxGuesses: takes 85% of the free bytes in exact integer arithmetic (`freeMem * 85 / 200 / length`). password_cracker_GPU.py:32 computes `int(free_mem * 0.85 // (length * 2))` in floating point, where 0.85 is not exact and a very large `free_mem` is rounded, so the result can differ by one.
- The Tkinter `BruteForceGUI` widgets and loading.py. A stop request is the input `Stop`: never, seen before stratum l, or seen while stratum l's pool runs.
- From password_generator.py: `gen_pass` (random), `encrypt`/`decrypt` (AES via `pyaes`), the `words` file, the interactive menu of `activate` apart from its length guard, the retry recursion after a refusal, and the floating-point brute-force estimate `fmt_time`.
- Strength.CheckPass: scores with the corrected length bonus (see Findings). The program's own `sc`, and so the verdict and suggestions it prints, follow Strength.ScoreAsWritten; CheckPass states how that score differs from its own (one lower for eight characters or more, one higher for fewer).
- Strength.CheckEntry: the report it returns carries the corrected score of Strength.CheckPass, not the program's `sc` (Strength.ScoreAsWritten).
- GpuCracker.SearchStratum: compares rows exactly (the corrected comparison, see Findings). The broadcast comparison as written is GpuCracker.BroadcastMatch.
- CppList.RunThread: hands each thread the corrected slice, empty when its start passes the end (see Findings). The vector copy as written is Partition.SliceAsWritten.
- CpuCracker.Worker, FlagCracker.Worker, CppList.Worker: require every prefix in the chunk to have the same length k. Every caller in the source passes such a chunk.

## Findings

| source | as written | input that shows it | evidently intended | confidence | as-written member | corrected member |
|---|---|---|---|---|---|---|
| password_cracker_CPU.c++:74-77 | the start `t * chunk_size` is not clamped, so the vector copy's start can pass its end | a digits-only target of length at most two (10 prefixes) on 8 threads: chunk 2, thread 6 copies [12, 10) | threads past the end get an empty slice | high, not executed | Partition.SliceAsWrittenExample | Partition.PartsCover |
| password_cracker_GPU.py:96 | `guesses_gpu == target_gpu[None, :]` broadcasts a one-symbol row, and raises for other unequal lengths | target "aa": the stratum-1 row "a" matches and "a" is reported; target "abc": stratum 2 raises and the script ends in its error handler | rows are compared with the target only when the lengths agree | high, not executed | GpuCracker.BroadcastExamples | GpuCracker.RunsClosed |
| password_generator.py:76 | the length bonus gives 1 point for eight characters or more and 2 for fewer | "abcdefg" scores 3 ("Ok"), "abcdefgh" scores 2 ("Weak") | longer passwords score higher: 2 points for eight or more, 1 for fewer | medium, not executed | Strength.LongerScoresLowerAsWritten | Strength.ScoreGrows |
