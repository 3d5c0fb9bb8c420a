# Media tool core: file atoms, streaming protocols, transcoder clock

A Dafny model of the hard parts of the media code under `ext/`, with proofs about it. `dafny verify dfyconfig.toml` checks everything.

**MP4 files (`ext/mp4v2`).** A file is a tree of atoms. The writer puts a placeholder size in front of each atom, writes what is in it, seeks back and patches the size; the reader descends through the sizes it finds. `AtomTree` says on values what bytes a tree stands for and what tree a reader builds from arbitrary bytes. `AtomRoundTrip` proves the two inverse, `AtomSafety` proves what holds of whatever is read. `Mp4File` and `Mp4Atom` are the file with its position and the atom objects whose fields are updated in place; their methods are proved against the value level. `RootAtom` is the write of a whole file, in one pass or two; `ChunkRewrite` merges the chunks of all tracks into the new media data, and `Optimiser` puts both together; `ReadBack` reads the optimised file again. `AtomLayouts`, `UrlAtoms` and `AvcConfig` are atoms whose layout depends on what was read of them, `SampleToChunk` is the sample-to-chunk table with its cached column, `Descriptors` and `DescriptorObjects` are the systems-layer descriptors read in two phases, `LayoutBytes` and `DescriptorBytes` say what stands in which byte of them, `Mp4Array` is the growable array. `ByteCodec`, `Bits` and `Modular` hold the byte, bit and remainder facts they share.

**Playback and streaming (`ext/ffmpeg/ffplay.c`, `ffserver.c`).** `SlotRing` is the picture and subpicture ring between two threads, `PacketQueues` and `SeekEpochs` are the packet queues with the marker a seek leaves, `AudioCallback` cuts decoded buffers to the sizes the audio device asks for. `RtspInterleave` is the RTSP connection that RTP packets share, `FeedStore` the circular feed file. Threads and connections are classes whose methods are the atomic steps; `Run` methods take any sequence of steps.

**Transcoder (`ext/ffmpeg/ffmpeg.c`).** `FrameSync` decides how often a picture is repeated or dropped, `TimestampRepair` keeps the input clocks continuous, `Scheduler` is the main loop.

Conventions: a byte is a number below 256, a file is a sequence of bytes and a position; 64-bit and 32-bit wrap-around is written out where the code depends on it (`AtomTree.Wrap64`, `SampleToChunk.Wrap32`); error returns and exceptions are results; what the network, the decoder, the clock or the memory allocator answers is a parameter, so a statement holds for every answer. Times are microseconds, the transcoder's doubles are reals.

What turned out different from what one would expect of the code:

- A 64-bit size that carries the end of an atom past 2^64 makes the reader go backwards, and only that does: reading goes backwards if and only if one of the headers the reader meets wraps (`AtomSafety.BackwardIff`; `AtomSafety.WrappedSize` is such a file of 24 bytes). Bytes that only look like such a header, in media data or behind an error, do not matter.
- An optimised file whose chunks end up behind 4 GB has wrong entries in a 32-bit offset table: all entries are right if and only if, adding up the chunks' sizes in the order of the merge from the start of the media data on, every chunk starts below the limit of its track's table (`Optimiser.TablesRightIff`; `Optimiser.NarrowTable` is a case where it is not so). All of that is known before the file is written.
- An atom whose flags or version are changed after its property list was created is written with the old list and read with the new one; for nonzero values it comes back if and only if both are the same (`AtomLayouts.LayoutIff`). Zeros can hide the difference (`AtomLayouts.ZerosIff`, and `AtomLayouts.ChangedFlags` for one list of each kind).
- The test that should put RTCP packets on odd channels looks at the length in front of the packet, so below 12 MB no packet is ever sent on an odd channel (`RtspInterleave.OddChannel`). The length check before it forgets the four bytes of the length (`RtspInterleave.CutPacket`).
- If there is no memory for the marker of a seek, the new packets follow the old ones without one (`SeekEpochs.MarkLane`).
- A stream whose clock starts unknown and of which frames are decoded before its first timestamp loses its clock: their duration is added to the value for "unknown" as if that were a time. If nothing has been decoded the timestamp is taken as it is (`TimestampRepair.FirstTimestamp`, an equivalence, and `TimestampRepair.LostClock`, a case). Steps back of one microsecond are never repaired, however many there are (`CreepingBack`; exactly when a clock goes back is `BackIff`).
- The counter of duplicated frames counts the original as well (`FrameSync.VideoOut.Unlimited`).
- A list of 32 or more sequence parameter sets does not survive writing and reading, because its count has five bits (`AvcConfig.RoundTripIffCountFits`); 32 empty ones come back as none (`AvcConfig.LostSets`).
- When the last entry of the sample-to-chunk table has empty chunks, locating a sample behind it, and only then, divides by zero in the code (`SampleToChunk.StscAtom.Locate`, which answers `EmptyChunks`); these are exactly the samples that no chunk holds (`SampleToChunk.NoChunkIff`; `SampleToChunk.OnlyEmptyChunks` for a table of one entry).

## Model

| member | source | states |
|---|---|---|
| AtomTree.ParseHead | ext/mp4v2/mp4atom.cpp:307-373 | a header that is read ends inside its parent and after its start, with the data size modulo 2^64; a size field of 0 means to the end of the parent |
| AtomTree.ReadProps | ext/mp4v2/mp4atom.cpp:564-590 | every field has its width and ends inside the atom, or the reader stops with the right error |
| AtomTree.ParseAtom | ext/mp4v2/mp4atom.cpp:307-442 | an atom that is read starts where reading began and ends inside its parent |
| AtomRoundTrip.HeaderRoundTrip | ext/mp4v2/mp4atom.cpp:307-373 | the patched header is read back in all its forms; its size never looks like the special values 0 and 1 |
| AtomRoundTrip.PropsRoundTrip | ext/mp4v2/mp4atom.cpp:564-590 | written fields are read back with the same boundaries |
| AtomRoundTrip.RoundTrip | ext/mp4v2/mp4atom.cpp:307-442 | reading what was written of any well-formed tree rebuilds it, every node with the start, end and size it was written with |
| AtomRoundTrip.BodyRoundTrip | ext/mp4v2/mp4atom.cpp:415-442 | the same for the fields and children of one atom |
| AtomRoundTrip.RoundTripAll | ext/mp4v2/mp4atom.cpp:592-665 | the same for a list of siblings, which leaves no byte over |
| AtomRoundTrip.RoundTripThen | ext/mp4v2/mp4atom.cpp:592-665 | the same in front of other atoms |
| AtomRoundTrip.FileRoundTrip | ext/mp4v2/mp4atom.cpp:592-665 | the same for a whole file |
| AtomRoundTrip.ParsedIsWellFormed | ext/mp4v2/mp4atom.cpp:307-442 | whatever is read from a file below 4 GB is a tree the writer and reader agree on |
| AtomRoundTrip.Rewriting | ext/mp4v2/mp4atom.cpp:679-705 | reading, writing and reading again gives the same tree at its new places |
| AtomSafety.ParserSafety | ext/mp4v2/mp4atom.cpp:307-442 | on arbitrary bytes, an atom that is read lies in its parent, its children follow each other and fewer than eight bytes are left over, at every level |
| AtomSafety.KidsSafety | ext/mp4v2/mp4atom.cpp:592-626 | the same for the children of an atom |
| AtomSafety.BackwardIsWrap | ext/mp4v2/mp4atom.cpp:336-373 | a readable header sends the reader backwards if and only if its size wraps 64 bits |
| AtomSafety.BackwardIff | ext/mp4v2/mp4atom.cpp:307-442 | reading an atom goes backwards if and only if one of the headers the reader meets on its way is readable and wraps; so without one it always comes to an end |
| AtomSafety.FileBackwardIff | ext/mp4v2/mp4atom.cpp:592-665 | the same for a whole file |
| AtomSafety.WrappedSize | ext/mp4v2/mp4atom.cpp:336-373 | a file of 24 bytes whose second header wraps sends the reader backwards |
| AtomSafety.WhereAtomEnds | ext/mp4v2/mp4atom.cpp:307-373 | where a readable header says its atom ends, from its bytes: a size of 0 and one past the parent mean the end of the parent, any other its start and its size; 1 stands for the eight bytes behind the type |
| AtomSafety.FieldsReadIff | ext/mp4v2/mp4atom.cpp:564-590 | fields are read if and only if the last one still ends in file and atom, and together they are the bytes there |
| AtomSafety.FirstOverrun | ext/mp4v2/mp4atom.cpp:564-590 | the first field that does not fit decides between the end of the file and an atom too small |
| Mp4File.MP4File.WriteUInt64 | ext/mp4v2/mp4file_io.cpp:301-318 | eight bytes, most significant first, over or behind what is in the file |
| Mp4File.MP4File.ReadUInt | ext/mp4v2/mp4file_io.cpp:189-206 | the number those bytes stand for, or the end of the file |
| ByteCodec.DigitAt | ext/mp4v2/mp4file_io.cpp:245-318 | each byte of a number is the digit of its place, the most significant first |
| Mp4Atom.MP4Atom.AddChildAtom | ext/mp4v2/mp4atom.h:132-136 | the tree gets one more child at its end and nothing else changes |
| Mp4Atom.MP4Atom.BeginWrite | ext/mp4v2/mp4atom.cpp:707-723 | the placeholder header of the right form stands at the old position |
| Mp4Atom.MP4Atom.FinishWrite | ext/mp4v2/mp4atom.cpp:725-749 | the size field, and only it, is patched; refused exactly when it does not fit |
| Mp4Atom.MP4Atom.WriteProperties | ext/mp4v2/mp4atom.cpp:751-769 | the loop leaves the fields one after the other |
| Mp4Atom.MP4Atom.WriteChildAtoms | ext/mp4v2/mp4atom.cpp:771-780 | the children's bytes one after the other, each child located where it was written |
| Mp4Atom.MP4Atom.Write | ext/mp4v2/mp4atom.cpp:679-690 | writing by seeking and patching leaves exactly the serializer's bytes at the old position, ends behind them, changes no other byte and locates every node; it fails exactly when the tree is not writable, and then nothing before the position has changed |
| Mp4Atom.MP4Atom.Rewrite | ext/mp4v2/mp4atom.cpp:692-705 | writes in place at the old start and restores the position; an atom never written is left alone |
| Mp4Atom.MP4Atom.WriteFree | ext/mp4v2/atom_free.cpp:34-48 | a free atom is a header and zeros, with the long header exactly when its size asks for it |
| Mp4Atom.MP4Atom.ReadAtom | ext/mp4v2/mp4atom.cpp:307-398 | the imperative reader builds exactly the tree of the pure parser, or stops with its error, and ends at the end of the atom, which for a size field of 0 is that of its parent |
| Mp4Atom.MP4Atom.ReadHeader | ext/mp4v2/mp4atom.cpp:307-373 | reading and clamping a header agree with the pure parser; a size field of 0 means to the end of the parent |
| Mp4Atom.MP4Atom.ClampToParent | ext/mp4v2/mp4atom.cpp:336-373 | cutting at the parent's end step by step in 64-bit arithmetic is cutting the end |
| Mp4Atom.MP4Atom.Read | ext/mp4v2/mp4atom.cpp:415-442 | fields, children, and on to the end of the atom |
| Mp4Atom.MP4Atom.ReadProperties | ext/mp4v2/mp4atom.cpp:564-590 | the loop stops at the first field that overruns |
| Mp4Atom.MP4Atom.ReadChildAtoms | ext/mp4v2/mp4atom.cpp:592-665 | the loop reads the children the pure parser finds |
| RootAtom.WriteAtomType | ext/mp4v2/atom_root.cpp:111-123 | the first or all atoms of one type are written, and no atom of another type is touched |
| RootAtom.GetLastMdatIndex | ext/mp4v2/atom_root.cpp:100-109 | the last media data atom |
| RootAtom.BeginWrite | ext/mp4v2/atom_root.cpp:36-42 | file type and the header of the media data |
| RootAtom.FinishWrite | ext/mp4v2/atom_root.cpp:49-60 | the media data's size is patched and everything after it in the tree follows |
| RootAtom.BeginOptimalWrite | ext/mp4v2/atom_root.cpp:62-69 | file type, movie, all user data and the media data header stand in this order; where movie and media data start |
| RootAtom.FinishOptimalWrite | ext/mp4v2/atom_root.cpp:71-98 | patches the media data, writes the movie again in place; the size assertion holds exactly when the movie's data has its old length |
| RootAtom.SetFields | ext/mp4v2/atom_root.cpp:85-97 | new values of the old widths reach their atoms and change no width in the tree, which the second write of the movie depends on |
| RootAtom.TwoPasses | ext/mp4v2/atom_root.cpp:62-98 | placeholder pass, media data, patch and second movie are one write of the final file |
| RootAtom.SecondPassFits | ext/mp4v2/atom_root.cpp:85-97 | if only fixed-width values change, the size assertion cannot fail |
| RootAtom.StillSame | ext/mp4v2/atom_root.cpp:85-97 | a tree with new values, once written, agrees with the old one written in fields, sizes and children but for the values |
| RootAtom.SameWidthsSameLength | ext/mp4v2/atom_root.cpp:85-97 | trees that differ in values only have the same length and are writable together |
| ChunkRewrite.NextTrack | ext/mp4v2/mp4file.cpp:332-367 | the track whose next chunk is earliest, at equal times the last hint track or else the first track; none exactly when all chunks are written |
| ChunkRewrite.Track.ReadChunk | ext/mp4v2/mp4track.cpp:1376-1412 | the bytes of a chunk from where the table says, or the end of the file |
| ChunkRewrite.Track.RewriteChunk | ext/mp4v2/mp4track.cpp:1414-1426 | the bytes at the current position, and that position in the table as far as it fits |
| ChunkRewrite.RewrittenStep | ext/mp4v2/mp4file.cpp:369-387 | moving one chunk leaves the chunks moved before found and the tables of the others as they were |
| ChunkRewrite.RewriteMdat | ext/mp4v2/mp4file.cpp:318-394 | succeeds if and only if all chunks are in the source; then every chunk of every track has been written once, each track in its order, in exactly the order of the merge, and if every track is in the order of time so are all chunks, those of hint tracks first at equal times, with the new offsets in the tables |
| ChunkRewrite.MergeStep | ext/mp4v2/mp4file.cpp:332-367 | the merge of the tracks, a function of times and hint tracks alone, takes the earliest next chunk and goes on with the rest |
| ChunkRewrite.InTimeStep | ext/mp4v2/mp4file.cpp:346-360 | taking the earliest next chunk of tracks that are in the order of time keeps what is written in that order, hint tracks first |
| ChunkRewrite.EveryChunkFound | ext/mp4v2/mp4track.cpp:1414-1426 | each chunk is in the new media data behind the chunks that the list has before it, and its table entry is that place modulo the width of the table |
| Optimiser.Optimize | ext/mp4v2/mp4file.cpp:265-316 | file type, movie with the new offset tables, all user data, media data header and the merged chunks, if and only if the front is writable, both atoms exist, all chunks are readable and the size fits; the movie keeps its length; the new tables are right if and only if every place computed beforehand fits |
| Optimiser.PayloadInPlace | ext/mp4v2/atom_root.cpp:71-98 | the second write of the movie does not move or change the media data |
| Optimiser.ChunkFound | ext/mp4v2/mp4file.cpp:301-305 | in the optimised file every chunk has its old bytes at the place that sizes, times and hint tracks determine beforehand; its entry in the offset atom gives that place back if and only if it fits the width of the table |
| Optimiser.TablesRightIff | ext/mp4v2/mp4track.cpp:1414-1426 | all entries of all offset atoms are right if and only if every place computed beforehand fits the table of its track |
| Optimiser.NarrowTable | ext/mp4v2/mp4track.cpp:1414-1426 | a chunk behind one of 4 GB less one byte does not fit a table of four bytes |
| ReadBack.OptimisedReadsBack | ext/mp4v2/mp4file.cpp:289-307 | the optimised file is read back as file type, movie with its new values and all user data where they were written, then one media data atom that spans all chunks and ends with the file |
| ReadBack.MediaFileRoundTrip | ext/mp4v2/atom_mdat.cpp:29-32 | atoms followed by media data are read back, the media data as one atom of the right form |
| ReadBack.MediaToTheEnd | ext/mp4v2/mp4atom.cpp:336-339 | atoms followed by media data with a size field of 0 are read as those atoms and one that spans the rest of the file |
| AtomLayouts.LayoutRoundTrip | ext/mp4v2/atom_trun.cpp:32-79 | for every version, flags and count, an atom written with the property list its head asks for is read back, every value of it (trun, tfhd, elst, stsz, ftyp) |
| AtomLayouts.LayoutIff | ext/mp4v2/atom_tfhd.cpp:32-69 | an atom written with any property list is read back, for nonzero values, if and only if the list is the one the reader works out from version and flags |
| AtomLayouts.ZerosIff | ext/mp4v2/atom_tfhd.cpp:32-69 | zeros are read back if and only if as many fields are asked for and no more bytes than were written |
| AtomLayouts.ChangedFlags | ext/mp4v2/atom_tfhd.cpp:32-69 | a list created for other flags: a nonzero field is lost, a zero comes back by accident |
| AtomLayouts.LayoutAtom.SetHead | ext/mp4v2/mp4atom.cpp:807-837 | changing version or flags leaves the property list as it was created; when that list is still the right one |
| AtomLayouts.LayoutAtom.AddRunProperties | ext/mp4v2/atom_trun.cpp:32-64 | fields and columns exactly for the flags that are set |
| AtomLayouts.LayoutAtom.AddHeaderProperties | ext/mp4v2/atom_tfhd.cpp:32-55 | fields exactly for the flags that are set |
| AtomLayouts.LayoutAtom.AddEditProperties | ext/mp4v2/atom_elst.cpp:37-59 | the version chooses the widths |
| AtomLayouts.LayoutAtom.Read | ext/mp4v2/atom_trun.cpp:66-79 | head, new properties, the rest and on to the end agree with the pure two-step reader; the property list is the one the head asks for |
| AtomLayouts.LayoutAtom.Write | ext/mp4v2/atom_stsz.cpp:59-69 | every value with the width its property was created with; no table when the sample size is constant |
| AtomLayouts.SizesRoundTrip | ext/mp4v2/atom_stsz.cpp:43-69 | reader and writer agree on whether there is a table of sample sizes |
| AtomLayouts.BrandsFromSize | ext/mp4v2/atom_ftyp.cpp:63-71 | the number of brands is recovered from the size of the atom |
| LayoutBytes.FlagBit | ext/mp4v2/atom_trun.cpp:34-64 | a flag is set if and only if its bit is, whatever the others |
| LayoutBytes.HeaderBytes | ext/mp4v2/atom_tfhd.cpp:32-55 | every byte of a track fragment header, for all flags |
| LayoutBytes.RunBytes | ext/mp4v2/atom_trun.cpp:34-64 | every byte of a track fragment run, for all flags and any number of samples |
| LayoutBytes.EditBytesByVersion | ext/mp4v2/atom_elst.cpp:37-59 | every byte of an edit list, for version 1 and the others |
| LayoutBytes.SizeBytes | ext/mp4v2/atom_stsz.cpp:43-69 | every byte of a table of sample sizes, with or without a constant size |
| LayoutBytes.BrandBytes | ext/mp4v2/atom_ftyp.cpp:24-44 | every byte of a file type atom |
| UrlAtoms.UrlRoundTrip | ext/mp4v2/atom_url.cpp:31-63 | the self-contained flag the writer sets tells the reader whether there is a location |
| UrlAtoms.UrlBytes | ext/mp4v2/atom_url.cpp:45-63 | the lowest bit of the flags says that no location follows; the other bits are kept |
| UrlAtoms.UrlAtom.Write | ext/mp4v2/atom_url.cpp:45-63 | sets the flag to what the location is and writes accordingly |
| UrlAtoms.UrlAtom.Read | ext/mp4v2/atom_url.cpp:31-43 | agrees with the pure reader |
| AvcConfig.EntriesRoundTrip | ext/mp4v2/atom_avcC.cpp:35-45 | each parameter set is as long as the length in front of it says |
| AvcConfig.ReadEntries | ext/mp4v2/atom_avcC.cpp:35-45 | length by length, the loop finds the same entries |
| AvcConfig.RoundTripIffCountFits | ext/mp4v2/atom_avcC.cpp:48-82 | a configuration comes back if and only if it has at most 31 sequence parameter sets |
| AvcConfig.LostSets | ext/mp4v2/atom_avcC.cpp:48-82 | 32 empty sets are read back as none, and nothing else changes |
| AvcConfig.ConfigBytes | ext/mp4v2/atom_avcC.cpp:48-82 | a configuration with one set of each kind, byte by byte, written and read |
| SampleToChunk.StscAtom.Read | ext/mp4v2/atom_stsc.cpp:51-78 | the cached column holds, modulo 2^32, the first sample of each entry's first chunk in a chunk-by-chunk count |
| SampleToChunk.EvenlySpaced | ext/mp4v2/atom_stsc.cpp:68-77 | within an entry the chunk-by-chunk count grows by the samples per chunk |
| SampleToChunk.StscAtom.GetSampleStscIndex | ext/mp4v2/mp4track.cpp:686-708 | the last entry that does not start after the sample |
| SampleToChunk.StscAtom.Locate | ext/mp4v2/mp4track.cpp:796-831 | the chunk found through the cache is the one that holds the sample in the chunk-by-chunk count; it divides by zero if and only if the last entry has empty chunks and the sample is not before it |
| SampleToChunk.OneChunk | ext/mp4v2/mp4track.cpp:796-831 | a sample is in one chunk only |
| SampleToChunk.NoChunkIff | ext/mp4v2/mp4track.cpp:810-816 | a sample is in no chunk if and only if the last entry has empty chunks and the sample is not before it |
| SampleToChunk.OnlyEmptyChunks | ext/mp4v2/mp4track.cpp:810-816 | a table of one entry with empty chunks has its first sample in no chunk |
| Bits.LengthRoundTrip | ext/mp4v2/mp4file_io.cpp:511-557 | the four-byte length is read back below 2^28 |
| Bits.LengthOfGroups | ext/mp4v2/mp4file_io.cpp:511-524 | one to four groups of seven bits are a length, the last of them the one that is not continued |
| Bits.BitAt | ext/mp4v2/mp4file_io.cpp:511-557 | each bit of a number is the digit of its place, the most significant first |
| Descriptors.FlagsComeFirst | ext/mp4v2/descriptors.cpp:71-81 | the flags consulted are read before the mutate point and never left out |
| Descriptors.PartsRoundTrip | ext/mp4v2/mp4property.cpp:839-902 | a list of descriptors ends at its limit or at a tag of another list |
| Descriptors.TwoPhases | ext/mp4v2/mp4descriptor.cpp:67-80 | reading before and after the mutate point gives the written fields, for every setting of the flags |
| Descriptors.DescriptorRoundTrip | ext/mp4v2/mp4descriptor.cpp:67-174 | every descriptor comes back, whatever follows it, and reading takes exactly the patched length |
| Descriptors.ParsedIsWellFormed | ext/mp4v2/mp4descriptor.cpp:67-142 | whatever the bits, a descriptor that is read has just the fields its flags announce, within their widths and tags |
| Descriptors.ReadByFlags | ext/mp4v2/descriptors.cpp:71-204 | which flag announces which field of the three kinds, in every descriptor that is read |
| DescriptorBytes.ReadByTag | ext/mp4v2/mp4property.cpp:839-902 | which tags go into which list of the three kinds, in every descriptor that is read |
| DescriptorBytes.OnTheWire | ext/mp4v2/mp4descriptor.cpp:144-174 | every byte of a written descriptor: tag, length, the fields that share bytes, optional fields, lists |
| DescriptorObjects.Descriptor.Mutate | ext/mp4v2/descriptors.cpp:188-204 | which flag hides or shows which field, field by field for each kind; exactly the fields the flags rule out are implicit |
| DescriptorObjects.Descriptor.Write | ext/mp4v2/mp4descriptor.cpp:144-174 | placeholder, fields, padding and patch leave the pure bytes; refused exactly above 2^28 - 1 |
| DescriptorObjects.Descriptor.Read | ext/mp4v2/mp4descriptor.cpp:67-142 | header and both phases agree with the pure reader, so fields and lists are those that flags and tags announce |
| DescriptorObjects.BitFile.ReadMpegLength | ext/mp4v2/mp4file_io.cpp:511-524 | up to four groups of seven bits |
| Mp4Array.Array.Insert | ext/mp4v2/mp4array.h:73-87 | inserts into the sequence of elements; storage doubles only when full |
| Mp4Array.Array.Add | ext/mp4v2/mp4array.h:69-71 | appends |
| Mp4Array.Array.Delete | ext/mp4v2/mp4array.h:89-96 | removes one element and keeps the order of the others |
| Mp4Array.Array.Resize | ext/mp4v2/mp4array.h:97-102 | keeps what fits |
| Mp4Array.AddAll | ext/mp4v2/mp4array.h:69-87 | n additions to an empty array copy fewer than 2n elements |
| RtspInterleave.RtspConnection.Interleave | ext/ffmpeg/ffserver.c:2263-2311 | one whole frame is started on an idle connection, which is locked unless all of it is sent |
| RtspInterleave.RtspConnection.Writable | ext/ffmpeg/ffserver.c:896-947 | what is left of the frame or reply goes on in order; a half-read request survives a packet and is dropped after a reply |
| RtspInterleave.RtspConnection.Receive | ext/ffmpeg/ffserver.c:794-824 | stops at the first blank line, a full buffer or the end of input |
| RtspInterleave.RtpSender.SendData | ext/ffmpeg/ffserver.c:2225-2321 | sends due packets in order while the connection is idle and touches nothing while it is locked |
| RtspInterleave.RtpSender.Prepare | ext/ffmpeg/ffserver.c:2144-2194 | once the buffer has been used up, new packets and their stream take its place; before that nothing changes |
| RtspInterleave.CutAtBlankLines | ext/ffmpeg/ffserver.c:806-823 | requests and what is left over are all bytes received; a request ends at its first blank line and no part of the rest does |
| RtspInterleave.Run | ext/ffmpeg/ffserver.c:2263-2311 | over every interleaving the wire is whole frames and replies and part of at most one more, nothing sent changes, requests are cut at their blank lines, and each sender's packets are on the wire in order, each with the stream an event prepared it for |
| RtspInterleave.Demultiplexed | ext/ffmpeg/ffserver.c:2277-2292 | a client can take any mixture of frames and replies apart again |
| RtspInterleave.FrameReadBack | ext/ffmpeg/ffserver.c:2283-2291 | one frame can be read back if and only if it has fewer than 65536 bytes |
| RtspInterleave.FrameOnTheWire | ext/ffmpeg/ffserver.c:2277-2292 | every byte of a frame up to the packet limit: the sign, twice the stream, the length, the packet |
| RtspInterleave.PrefixInBuffer | ext/ffmpeg/ffserver.c:2243-2247 | the length in front of a buffered packet, byte by byte |
| RtspInterleave.OddChannel | ext/ffmpeg/ffserver.c:2279-2286 | the channel is odd if and only if the length has a certain byte; for packets up to the TCP limit never |
| RtspInterleave.SenderReportOnEvenChannel | ext/ffmpeg/ffserver.c:2279-2282 | an RTCP sender report goes out on an even channel |
| RtspInterleave.NextOfPrefixed | ext/ffmpeg/ffserver.c:2238-2251 | a packet as the packetizer buffers it is found whole |
| RtspInterleave.CutPacket | ext/ffmpeg/ffserver.c:2240-2251 | a packet cut by more than four bytes is discarded, one cut by up to four is not noticed |
| FeedStore.NextSlot | ext/ffmpeg/ffserver.c:2414-2421 | advancing and wrapping the write index counts slots modulo their number; the index stays within the file |
| FeedStore.StoreOne | ext/ffmpeg/ffserver.c:2409-2424 | after one more packet the file holds the last packets, each in its slot, and the header region but for the index |
| FeedStore.Feed.StorePacket | ext/ffmpeg/ffserver.c:2409-2424 | the in-place update does that and keeps the feed size equal to the file's length |
| FeedStore.Feed.ReceiveData | ext/ffmpeg/ffserver.c:2376-2478 | one receive call of any size; fails exactly at the end, on lost step or on a bad header |
| FeedStore.Feed.StartReceive | ext/ffmpeg/ffserver.c:2344-2374 | a new connection takes up at the slot where the last one stopped |
| FeedStore.Feed.Session | ext/ffmpeg/ffserver.c:2376-2478 | for every way the network cuts the bytes, the outcome and the data packets stored depend on the bytes alone; a session that falls out of step has stored the packets before the bad one |
| FeedStore.SyncGrows | ext/ffmpeg/ffserver.c:2395-2401 | checking the mark of the packet being received is enough to keep the whole stream in step |
| FeedStore.MarksInPlace | ext/ffmpeg/ffserver.c:2395-2401 | a stream is in step if and only if the two bytes of the mark are at every multiple of 4096 behind the header |
| FeedStore.BlocksAt | ext/ffmpeg/ffserver.c:2404-2409 | where each packet is in the stream of bytes |
| FeedStore.OldestFirst | ext/ffmpeg/libavformat/ffm.c:636-652 | translated positions run through the stored packets from the oldest to the newest |
| SlotRing.Ring.Exclusive | ext/ffmpeg/ffplay.c:1215-1287 | the slot being filled is not the one shown, nor the next, nor any that holds an item |
| SlotRing.Ring.Fill | ext/ffmpeg/ffplay.c:1253-1279 | filling outside the lock leaves every other slot alone |
| SlotRing.Ring.Advance | ext/ffmpeg/ffplay.c:1281-1283 | the item joins the ring's order |
| SlotRing.Ring.AllocatePicture | ext/ffmpeg/ffplay.c:1164-1202 | replacing the picture buffer in the main thread loses no item |
| SlotRing.Ring.Show | ext/ffmpeg/ffplay.c:1005-1012 | the consumer sees the oldest item |
| SlotRing.Ring.Following | ext/ffmpeg/ffplay.c:1084-1091 | the item after it, if it is counted |
| SlotRing.Ring.Release | ext/ffmpeg/ffplay.c:1113-1119 | the item shown leaves the ring's order |
| SlotRing.Ring.Drain | ext/ffmpeg/ffplay.c:1065-1081 | a change of subtitles empties the ring but for at most one item in flight |
| SlotRing.Take | ext/ffmpeg/ffplay.c:1209-1287 | what each atomic step does to both threads, to the size, and to what is being filled, has been put and has been taken |
| SlotRing.Run | ext/ffmpeg/ffplay.c:1209-1287 | over all interleavings items leave in the order they entered, every item was filled in by a step, sizes stay in bounds, and the two threads own different slots |
| PacketQueues.PacketQueue.Put | ext/ffmpeg/ffplay.c:255-285 | appends to the linked list and adds one to the count and the bytes of the packet to the size, none for a marker, or changes nothing without memory |
| PacketQueues.PacketQueue.Get | ext/ffmpeg/ffplay.c:299-332 | takes the oldest packet and its bytes off the count and the size, unless aborted or empty |
| PacketQueues.PacketQueue.Flush | ext/ffmpeg/ffplay.c:231-246 | nothing put before is delivered afterwards; count and size are zero |
| SeekEpochs.FlushLane | ext/ffmpeg/ffplay.c:2010-2023 | a new epoch starts with everything delivered so far before it |
| SeekEpochs.MarkLane | ext/ffmpeg/ffplay.c:2010-2023 | the marker is the first of the epoch, if and only if there is memory for it |
| SeekEpochs.TakeLane | ext/ffmpeg/ffplay.c:297-332 | a packet delivered is of the current epoch, and the marker comes exactly at its beginning |
| SeekEpochs.Player.Check | ext/ffmpeg/ffplay.c:2027-2035 | reading goes on only while no queue is above its limit, in bytes |
| SeekEpochs.Player.ReadPacket | ext/ffmpeg/ffplay.c:2036-2053 | the packet goes to the queue of its stream and to no other |
| SeekEpochs.Player.FlushQueue | ext/ffmpeg/ffplay.c:2010-2021 | one queue of an open stream is emptied; the seek is over only when every one has been |
| SeekEpochs.Player.MarkQueue | ext/ffmpeg/ffplay.c:2010-2023 | the marker goes into the queue just emptied; the seek goes on with the next queue or is over when all have been served |
| SeekEpochs.Do | ext/ffmpeg/ffplay.c:1985-2023 | a request is taken back only by a seek that fails, or by one that has reached every queue of an open stream |
| SeekEpochs.Run | ext/ffmpeg/ffplay.c:1970-2054 | over all interleavings, unless a seek is going on every queue of an open stream was emptied by the last successful seek and got its marker if there was memory; in every queue nothing from before a seek follows its marker, counts and sizes match the list, and the size is at most one packet above the limit |
| SeekEpochs.NextOfEpoch | ext/ffmpeg/ffplay.c:297-332 | what a balanced queue delivers next |
| AudioCallback.AudioOutput.Callback | ext/ffmpeg/ffplay.c:1648-1680 | the bytes asked for are the next ones of the stream of buffers, empty buffers looped past; it returns because not all later buffers are empty |
| AudioCallback.AudioOutput.Run | ext/ffmpeg/ffplay.c:1648-1680 | any sequence of calls plays the buffers from their start without gap or repetition, and fetches none too early |
| AudioCallback.SameStream | ext/ffmpeg/ffplay.c:1648-1680 | how the calls are cut makes no difference to what is heard |
| FrameSync.DriftBounds | ext/ffmpeg/ffmpeg.c:719-744 | over any run at most half a frame behind the last picture and 2.1 frames ahead of the latest; within these bounds of the last if times never decrease |
| FrameSync.BoundsAreReached | ext/ffmpeg/ffmpeg.c:726-730 | both bounds are tight |
| FrameSync.DriftOfRun | ext/ffmpeg/ffmpeg.c:401-406 | the drift in terms of timestamps, start time and time base |
| FrameSync.HalfToEven | ext/ffmpeg/ffmpeg.c:730 | half way between two numbers of frames it is the even one, anywhere else the nearest |
| FrameSync.FramesAndMicroseconds | ext/ffmpeg/ffmpeg.c:401-406 | frames of the output and microseconds since the start measure the same time |
| FrameSync.OneSecond | ext/ffmpeg/ffmpeg.c:401-406 | at 25 frames a second, a picture one second after the start is frame 25 |
| FrameSync.VideoOut.DoVideoOut | ext/ffmpeg/ffmpeg.c:703-864 | how many frames one picture becomes under the frame limit; timestamps go up by one without gaps |
| FrameSync.VideoOut.Run | ext/ffmpeg/ffmpeg.c:703-864 | below the limit the output time is that of the pure run, and every picture, drop and repetition is accounted for |
| TimestampRepair.OnePacket | ext/ffmpeg/ffmpeg.c:1960-1977 | a known clock goes back at most a microsecond, jumps at most the threshold past its prediction, and equals the timestamp plus the offset |
| TimestampRepair.RunIsSmooth | ext/ffmpeg/ffmpeg.c:1960-1977 | every packet of every run moves the clocks of a file like that |
| TimestampRepair.OffsetIsRepairs | ext/ffmpeg/ffmpeg.c:1964-1965 | the offset is the initial one less the sum of all repairs of all streams |
| TimestampRepair.Prediction | ext/ffmpeg/ffmpeg.c:1047-1109 | after any run, the time predicted for a stream is that of its last timestamp, as repaired, and all durations decoded since |
| TimestampRepair.NoGapAtRepair | ext/ffmpeg/ffmpeg.c:1960-1968 | a repaired packet gets exactly that time, so a jump of the timestamps leaves no gap |
| TimestampRepair.CreepingBack | ext/ffmpeg/ffmpeg.c:1963 | n packets can move a clock back by n microseconds without a repair |
| TimestampRepair.BackIff | ext/ffmpeg/ffmpeg.c:1960-1968 | a known clock goes back exactly when the timestamp is one microsecond before it and within the threshold of the prediction |
| TimestampRepair.CopiedOffset | ext/ffmpeg/ffmpeg.c:1963 | with timestamps copied nothing is ever repaired |
| TimestampRepair.WithoutTimestamps | ext/ffmpeg/ffmpeg.c:1047-1053 | without timestamps an unknown clock counts decoded durations up from the value for "unknown" and stays unusable |
| TimestampRepair.FirstTimestamp | ext/ffmpeg/ffmpeg.c:1811-1820 | over any packets before it, the first timestamp of a stream with an unknown clock is taken as it is, and the offset stays, if and only if nothing of the stream was decoded before; otherwise the clock goes to the far end of the range |
| TimestampRepair.LostClock | ext/ffmpeg/ffmpeg.c:1811-1820 | 40 ms decoded before the first timestamp put the clock at the far end of the range |
| TimestampRepair.InputFile.Receive | ext/ffmpeg/ffmpeg.c:1951-1977 | the exact condition for a repair, and the time and the prediction of the stream afterwards; shifting, repairing and predicting in place is one step of the pure model |
| TimestampRepair.InputFile.ReceiveAll | ext/ffmpeg/ffmpeg.c:1951-1977 | any number of packets are a run of the pure model |
| Scheduler.Select | ext/ffmpeg/ffmpeg.c:1894-1926 | the first output stream with the least key among those whose file is not at its end; none if an output has all its frames |
| Scheduler.Transcoder.Turn | ext/ffmpeg/ffmpeg.c:1878-1949 | one round stops for a reason if and only if it is the first of the reasons that holds, or reads once |
| Scheduler.Transcoder.Encode | ext/ffmpeg/ffmpeg.c:1878-1995 | the loop ends after at most as many rounds as there are packets and files, reads right each time and only while recording time is left and there is no other reason to stop, loses no packet, and says that all is read only when no output waits for a file |

## Left out

- Mp4Atom.MP4Atom.ReadAtom: where the end of an atom would lie before the atom the model stops with `Backward`, while the code goes on reading from there; what the code then does is not modelled.
- AtomTree.ReadProps: a property is a byte string of known width; property classes, names and value conversions are not part of the trees (tables and bit fields are in the layout modules).
- AtomRoundTrip.RoundTrip: `hdlr` and `ohdr`, whose readers guess or stop early, are not among the atoms it covers.
- AtomTree.Schema: which type has which fields and children is a parameter; the type table of `CreateAtom` and the checks for missing or repeated children are not modelled.
- Inserting before the end, deleting and renaming child atoms, and finding atoms and properties by path.
- ChunkRewrite.RewriteMdat: sizes and times of the chunks are given, and no chunk has the time that stands for "no time"; computing them from the sample tables is not modelled.
- Optimiser.Optimize: opening, renaming and closing the files, and the modification time set before the first pass.
- Mp4Array.Array.Delete: the code asks for one element more than remains to be moved; the model moves those that remain.
- Descriptors.DescriptorRoundTrip: a descriptor inside another one is a tag, a length and its contents as bytes; SL and content-id descriptors and expanded string lengths are not modelled.
- DescriptorObjects.Descriptor.Write: a descriptor without any fields is not modelled, since none of the three kinds is.
- AvcConfig.RoundTripIffCountFits: an entry's length field and the bytes of the entry are kept in step.
- RtspInterleave.Run: a packet that is still being sent belongs to the connection, not to the sender's buffer, so closing a sender meanwhile is not an event; RTSP commands, timeouts and data counts are not modelled.
- RtspInterleave.RtpSender.SendData: a buffer holds whole packets from the packetizer; a malformed one is only classified (`NextPacket`).
- FeedStore.Feed.ReceiveData: reading the stream headers out of the first packet is a parameter, and waking up waiting connections is left out.
- Bandwidth accounting in the server, whose total is not the sum over its streams on all runs.
- SlotRing.Run: cycling through streams while the player runs, which reinitialises a live queue, is not a step.
- SeekEpochs.Run: the code the consumers run on a marker, pausing, and packets a consumer has already taken when a seek happens.
- AudioCallback.AudioOutput.Run: how many samples synchronisation adds or removes is not modelled; with nothing but empty buffers from some point on the callback would not return, and that is excluded.
- FrameSync.VideoOut.DoVideoOut: frame synchronisation is on, and cropping does not fail; cropping, scaling, padding and encoding are left out. Reals stand for doubles, rounding is to the nearest integer.
- TimestampRepair.Step: flushing the decoders at the end is not a step; all streams count in microseconds; a decoder's output is the list of its frame durations.
- TimestampRepair.FirstTimestamp: integers are unbounded, while in the code the difference between a lost clock and a timestamp past the decoded duration is outside 64 bits.
- Scheduler.Transcoder.Encode: keys are what each round presents; how the encoders change them is not modelled.
- Sockets, threads' scheduling, codecs, demuxers, option parsing, status pages and session descriptions.
