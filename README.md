# GROMACS trajectory reader and standard data file reader/writer

This project models two parts of a molecular-dynamics analysis program in
Dafny and proves properties of them.

**The GROMACS TRR/TRJ trajectory reader** (`src/Traj_GmxTrX.cpp`) covers:

- detecting a file by its magic number (1993), read as stored or
  byte-swapped, which decides the byte order; the extension decides the
  format;
- reading 4-byte integers, reals of 4 or 8 bytes, and length-prefixed
  strings through a 128-byte line buffer;
- reading the frame header: title, thirteen block sizes and counts, the
  precision inferred from the coordinate, velocity or force block size, then
  dt and lambda;
- setting up the trajectory: frame size, frame count, whether seeking is
  possible, and the first box;
- reading one frame: seek, header, box, skipped tensors, coordinates and
  velocities.

The file is a byte sequence with a cursor. `CpptrajFile::Read` delivers what
is left of the file, up to the request. The reader's fields, its line buffer
and its float buffer are one `Reader` value (`TrxSpec`). Class
`TrxReader.GmxTrx` keeps the same fields and arrays and updates them in place.
Each of its methods ensures that it ends in the state the matching `TrxSpec`
function gives. `TrxLemmas` and `TrxProps` prove what those functions do:

- round trips: an integer, string or whole header written in either byte
  order is read back;
- exactly which inputs are accepted, and how far the cursor moves;
- the frame count and seekability rule;
- the degenerate-box rule;
- a frame's coordinates and velocities are the decoded blocks.

`ByteOrder` models `endian_swap` as the reversal of each 4- or 8-byte group,
with its in-place array version. It also models the little-endian host's
reading of a 4-byte integer.

**The standard text data file reader and writer** (`src/DataIO_Std.cpp`)
covers:

- the read and write keywords;
- how the 1D reader skips comment lines that carry column labels (a first
  label `Frame` makes column 0 the index);
- the column checks of the 2D matrix, vector and 3x3 matrix readers;
- the header name the writer formats (`#` prefix, truncation, spaces to
  underscores);
- the top-left header cell of a square 2D grid.

A file is its sequence of lines, and a line splits into tokens at
`" ,\t"`. `StdSpec` holds the functions. Class `StdIO.DataIOStd` holds the
fields and loops. `StdProps` holds the properties.

The host is taken to be little-endian. Floating-point values are kept as the
bytes they were read from (`Real`, `Coordinate`): nothing in the model
computes with floats.

## Model

| member | source | states |
|---|---|---|
| ByteOrder.Reverse | src/Traj_GmxTrX.cpp:75 | endian_swap of one value reverses its bytes and keeps its length; ReverseAt and ReverseReverse state what it does |
| ByteOrder.InHostOrder | src/Traj_GmxTrX.cpp:107-108 | read_int's conditional swap: reversed when the file is big-endian, as is otherwise; InHostOrderTwice states it undoes itself |
| ByteOrder.SwapEach | src/Traj_GmxTrX.cpp:329 | endian_swap over an array reverses every aligned w-byte group and keeps the length; SwapEachIndex, SwapEachGroup and SwapEachTwice state it |
| ByteOrder.SwapIf | src/Traj_GmxTrX.cpp:329 | the farray_ swap that happens only for a big-endian file keeps the length; FloatBlockDecodes states what it yields |
| ByteOrder.ReverseAt | src/Traj_GmxTrX.cpp:75 | byte i of a swapped group is byte n-1-i of the original |
| ByteOrder.ReverseReverse | src/Traj_GmxTrX.cpp:75 | swapping a group twice gives it back |
| ByteOrder.InHostOrderTwice | src/Traj_GmxTrX.cpp:108 | the conditional swap of read_int undoes itself, for either byte order |
| ByteOrder.SwapEachIndex | src/Traj_GmxTrX.cpp:329 | endian_swap of an array of groups puts byte off+w-1-j at off+j in every aligned group |
| ByteOrder.SwapEachGroup | src/Traj_GmxTrX.cpp:329 | every aligned group of the swapped array is that group reversed, elementwise |
| ByteOrder.SwapEachSlice | src/Traj_GmxTrX.cpp:329 | every aligned w-byte slice of the swapped array is the reversal of the original slice |
| ByteOrder.SwapEachOne | src/Traj_GmxTrX.cpp:75 | swapping a single value (the magic) is plain reversal |
| ByteOrder.SwapEachTwice | src/Traj_GmxTrX.cpp:329 | swapping an array of groups twice gives it back |
| ByteOrder.ReverseGroup | src/Traj_GmxTrX.cpp:329 | in place: the group at off is reversed and every other element is unchanged |
| ByteOrder.SwapNextGroup | src/Traj_GmxTrX.cpp:329 | in place: the group at off becomes the given reversal, nothing else changes |
| ByteOrder.EndianSwap | src/Traj_GmxTrX.cpp:329 | in place: the first len bytes become SwapEach of the old ones, the rest unchanged |
| ByteOrder.LittleEndian | src/Traj_GmxTrX.cpp:107 | the host value of n bytes lies below 256^n |
| ByteOrder.LittleEndianOfEncode | src/Traj_GmxTrX.cpp:107 | decoding the n-byte encoding of v < 256^n gives v |
| ByteOrder.EncodeOfLittleEndian | src/Traj_GmxTrX.cpp:107 | encoding the value of any byte string gives the string back |
| ByteOrder.Int32 | src/Traj_GmxTrX.cpp:107 | four bytes read into an int give a value in the 32-bit signed range |
| ByteOrder.Int32OfEncode | src/Traj_GmxTrX.cpp:107 | every 32-bit int survives encoding then reading |
| ByteOrder.EncodeOfInt32 | src/Traj_GmxTrX.cpp:107 | every four bytes survive reading then encoding |
| ByteOrder.Int32Injective | src/Traj_GmxTrX.cpp:73 | two byte strings read as the same int are equal, so only one pattern equals the magic |
| ByteOrder.Wrap32 | src/Traj_GmxTrX.cpp:292 | the (int) cast of the frame count lies in the 32-bit range and agrees modulo 2^32 |
| TrxSpec.Avail | src/Traj_GmxTrX.cpp:107 | a read delivers at most n bytes, all within the file, and all n exactly when they remain |
| TrxSpec.Skip | src/Traj_GmxTrX.cpp:107 | a read whose bytes are not kept changes only the cursor, moves it forward by at most n, by exactly n iff n is 0 or n bytes remain, and never past the end of the file |
| TrxSpec.Fill | src/Traj_GmxTrX.cpp:140 | a read into linebuffer_ changes only the cursor and the buffer, keeps the buffer's length, and moves the cursor by the bytes delivered; where they land is in TrxLemmas.FillPlaces and TrxLemmas.FillAt |
| TrxSpec.IntAt | src/Traj_GmxTrX.cpp:105-110 | read_int's value is a 32-bit int |
| TrxSpec.ReadFields | src/Traj_GmxTrX.cpp:176-193 | reading fields k..n-1 changes only those fields and the cursor, and keeps every field a 32-bit int |
| TrxSpec.ReadReal | src/Traj_GmxTrX.cpp:113-129 | read_real moves only the cursor; the header is untouched |
| TrxSpec.ZeroAt | src/Traj_GmxTrX.cpp:142 | the terminator position is within the buffer and holds a zero byte |
| TrxSpec.CStr | src/Traj_GmxTrX.cpp:142 | std::string(linebuffer_) is a prefix of the buffer |
| TrxSpec.ChunksEnd | src/Traj_GmxTrX.cpp:150-153 | n whole chunks advance the cursor by exactly CHUNK*n when the file holds them, and keep linebuffer_[CHUNK] |
| TrxSpec.ReadString | src/Traj_GmxTrX.cpp:134-163 | read_string consumes the length field (or reaches the end of the file) and leaves the header alone |
| TrxSpec.ReadWhole | src/Traj_GmxTrX.cpp:138-142 | a string shorter than BUF_SIZE moves only the cursor and the buffer |
| TrxSpec.ReadChunked | src/Traj_GmxTrX.cpp:143-162 | a longer string moves only the cursor and the buffer |
| TrxSpec.Chunks | src/Traj_GmxTrX.cpp:147-160 | the chunk loop and the leftover move only the cursor and the buffer |
| TrxSpec.FormatOf | src/Traj_GmxTrX.cpp:84-86 | the format is TRJ exactly for the extension ".trj", TRR otherwise |
| TrxSpec.Natom3 | src/Traj_GmxTrX.cpp:191 | natoms_ * 3 as a 32-bit int, never zero for natoms_ >= 1 |
| TrxSpec.Natom3NonZero | src/Traj_GmxTrX.cpp:187-191 | natom3_ is non-zero once natoms_ >= 1, and equals natoms_*3 when that fits |
| TrxSpec.InferPrecision | src/Traj_GmxTrX.cpp:195-204 | no precision exactly when the x, v and f sizes are all <= 0 |
| TrxSpec.ReadHeader | src/Traj_GmxTrX.cpp:165-215 | after the 4 magic bytes the header is the title then the counts and reals; the fields stay 32-bit |
| TrxSpec.ReadTitle | src/Traj_GmxTrX.cpp:170-174 | reading the title changes only the title and the cursor, which passes a length field or reaches the end |
| TrxSpec.SkipVersion | src/Traj_GmxTrX.cpp:170-171 | the version read moves only the cursor, forward |
| TrxSpec.HeaderCounts | src/Traj_GmxTrX.cpp:176-213 | reading the counts keeps the title and the setup and keeps the fields 32-bit |
| TrxSpec.HeaderReals | src/Traj_GmxTrX.cpp:194-213 | only precision, dt and lambda change |
| TrxSpec.ReadBox | src/Traj_GmxTrX.cpp:228-242 | ReadBox moves only the cursor |
| TrxSpec.ReadAtomVector | src/Traj_GmxTrX.cpp:325-340 | the output keeps its length; only the cursor and farray_ change |
| TrxSpec.OpenTrajin | src/Traj_GmxTrX.cpp:218-223 | as written: header read, its result ignored, the setup kept |
| TrxSpec.OpenTrajinRewound | src/Traj_GmxTrX.cpp:218-223 | corrected: as OpenTrajin, then the cursor back at 0 |
| TrxSpec.FrameSizeOf | src/Traj_GmxTrX.cpp:285-287 | frameSize_ is a size_t below 2^64 |
| TrxSpec.SetupTrajin | src/Traj_GmxTrX.cpp:264-314 | setup keeps the byte order and format and the 32-bit fields |
| TrxSpec.SetupFrames | src/Traj_GmxTrX.cpp:276-310 | after the header, setup keeps the header, the buffer and the byte order |
| TrxSpec.StageFor | src/Traj_GmxTrX.cpp:277-280 | allocating farray_ changes nothing else |
| TrxSpec.CountFrames | src/Traj_GmxTrX.cpp:281-303 | counting frames changes only the velocity flag, seekability and frameSize_ |
| TrxSpec.LoadBox | src/Traj_GmxTrX.cpp:304-310 | loading the box changes only the cursor and the box |
| TrxSpec.ReadFrame | src/Traj_GmxTrX.cpp:342-377 | readFrame keeps the setup and the lengths of X and V |
| TrxSpec.FrameBody | src/Traj_GmxTrX.cpp:348-377 | the frame body keeps the header and the lengths of X and V |
| TrxSpec.SkipTensors | src/Traj_GmxTrX.cpp:352-357 | the cursor moves by the positive virial and pressure sizes, nothing else changes |
| TrxSpec.FrameVectors | src/Traj_GmxTrX.cpp:358-374 | reading X and V keeps the box and the lengths |
| TrxSpec.BoxOut | src/Traj_GmxTrX.cpp:243-259 | six values: three lengths then three angles |
| TrxSpec.SetBoxOf | src/Traj_GmxTrX.cpp:304-310 | the box handed to SetBox has six values |
| TrxLemmas.IntAtEncoded | src/Traj_GmxTrX.cpp:105-110 | an int written in the file's byte order is read back by read_int |
| TrxLemmas.MagicValues | src/Traj_GmxTrX.cpp:67-79 | the little-endian magic bytes read as 1993; the big-endian ones are their reversal and do not |
| TrxSpec.IsTrx | src/Traj_GmxTrX.cpp:70-88 | IsTRX as written: a short magic read reports a trX file; else either magic sets the byte order and the extension the format; the rules are in TrxLemmas.IsTrxMagic and TrxProps.IsTrxShortRead |
| TrxSpec.IsTrxChecked | src/Traj_GmxTrX.cpp:70-88 | IsTRX with the short read reported as not trX; the rule is TrxProps.IsTrxCheckedExact |
| TrxLemmas.IsTrxMagic | src/Traj_GmxTrX.cpp:70-88 | with 4 bytes present: a trX file iff they are either magic; big-endian iff the big one; format from the extension |
| TrxLemmas.IsTrxOfWrittenMagic | src/Traj_GmxTrX.cpp:70-88 | a file starting with the magic in a byte order is detected with that byte order |
| TrxLemmas.IntsBytes | src/Traj_GmxTrX.cpp:176-193 | k ints take 4k bytes |
| TrxLemmas.ReadFieldsLength | src/Traj_GmxTrX.cpp:176-193 | reading n-k fields succeeds iff 4(n-k) bytes remain, and then moves the cursor exactly that far |
| TrxLemmas.ReadFieldsEncoded | src/Traj_GmxTrX.cpp:176-193 | fields written in the file's byte order are read back in order |
| TrxLemmas.ReadFieldValue | src/Traj_GmxTrX.cpp:176-193 | field j receives the j-th written int |
| TrxLemmas.ReadFieldsKeeps | src/Traj_GmxTrX.cpp:176-193 | fields before k are not touched |
| TrxLemmas.ZeroAtOf | src/Traj_GmxTrX.cpp:141-142 | the terminator of a zero-free string followed by a zero is found at its length |
| TrxLemmas.CStrOf | src/Traj_GmxTrX.cpp:141-142 | the C string of a zero-free string followed by a zero is that string |
| TrxLemmas.FillPlaces | src/Traj_GmxTrX.cpp:140 | the bytes a read into linebuffer_ got sit at its front and the rest of the buffer is unchanged |
| TrxLemmas.FillAt | src/Traj_GmxTrX.cpp:140 | reading bytes that are present puts exactly them at the buffer front |
| TrxLemmas.ChunkRead | src/Traj_GmxTrX.cpp:151-152 | one chunk of zero-free bytes gives exactly that chunk and keeps the terminator at CHUNK |
| TrxLemmas.ChunksRead | src/Traj_GmxTrX.cpp:149-153 | n chunks of zero-free bytes append exactly those bytes |
| TrxLemmas.ReadStringEncoded | src/Traj_GmxTrX.cpp:134-163 | a zero-free string written with its length is read back, the cursor after it |
| TrxLemmas.ShortStringRead | src/Traj_GmxTrX.cpp:138-142 | a string shorter than BUF_SIZE is read back whole |
| TrxLemmas.LongStringRead | src/Traj_GmxTrX.cpp:143-162 | a longer string is read back as its size/CHUNK chunks plus the leftover, size bytes in all |
| TrxLemmas.ChunksOf | src/Traj_GmxTrX.cpp:147-160 | whole chunks then a leftover give back their concatenation, consuming exactly their bytes |
| TrxLemmas.ReadHeaderEncoded | src/Traj_GmxTrX.cpp:165-215 | a valid header written in either order is read back field for field, the cursor at its end |
| TrxLemmas.ReadHeaderAfterMagic | src/Traj_GmxTrX.cpp:165-215 | the magic bytes are not checked: whatever four bytes precede the title, the header is read back |
| TrxLemmas.AfterMagicEncoded | src/Traj_GmxTrX.cpp:170-213 | title then body are read back, the cursor after both |
| TrxLemmas.ReadTitleEncoded | src/Traj_GmxTrX.cpp:170-174 | the title written after the version (TRR) or directly (TRJ) is read back |
| TrxLemmas.SkipVersionAt | src/Traj_GmxTrX.cpp:170-171 | TRR skips a 4-byte version, TRJ nothing |
| TrxLemmas.ReadTitleIs | src/Traj_GmxTrX.cpp:170-174 | the title is read_string after the version |
| TrxLemmas.HeaderCountsEncoded | src/Traj_GmxTrX.cpp:176-213 | the 13 ints and the two reals are read back |
| TrxLemmas.CountsEncoded | src/Traj_GmxTrX.cpp:176-193 | the 13 ints are read back and natom3_ is set from natoms_, 52 bytes consumed |
| TrxLemmas.HeaderRealsEncoded | src/Traj_GmxTrX.cpp:194-213 | dt and lambda written at the header's precision are read back |
| TrxLemmas.ReadRealEncoded | src/Traj_GmxTrX.cpp:113-129 | a real written at the precision in the file's order is read back |
| TrxLemmas.HeaderByteOrderIndependent | src/Traj_GmxTrX.cpp:165-215 | the same header written little- and big-endian reads to the same fields and length |
| TrxProps.ReadRealResult | src/Traj_GmxTrX.cpp:113-129 | read_real succeeds iff precision is 4 or 8 and that many bytes remain; the cursor advances by it; a failure keeps the old value |
| TrxProps.HeaderRealsAccepted | src/Traj_GmxTrX.cpp:194-213 | the reals part succeeds iff a precision is inferred, is 4 or 8, and 2*precision bytes remain |
| TrxProps.HeaderCountsAccepted | src/Traj_GmxTrX.cpp:186-213 | an accepted header has natoms >= 1, natom3 = natoms*3, precision 4 or 8 as inferred, 52+2p bytes read |
| TrxProps.HeaderCountsIs | src/Traj_GmxTrX.cpp:186-193 | with natoms >= 1 the counts part continues with step and nre, then the reals |
| TrxProps.ReadHeaderAccepted | src/Traj_GmxTrX.cpp:165-215 | an accepted header satisfies the rules above and spans at least 68 bytes within the file |
| TrxProps.AfterMagicAccepted | src/Traj_GmxTrX.cpp:170-213 | the same rules for the part after the magic, at least 64 bytes |
| TrxProps.HeaderPastEnd | src/Traj_GmxTrX.cpp:176-213 | an accepted header never ends past the end of the file |
| TrxProps.NoAtomsRejected | src/Traj_GmxTrX.cpp:186-190 | a header with natoms < 1 is refused |
| TrxProps.IsTrxShortRead | src/Traj_GmxTrX.cpp:72 | as written: a file shorter than 4 bytes is reported as trX, byte order and format unchanged |
| TrxProps.IsTrxCheckedExact | src/Traj_GmxTrX.cpp:70-88 | corrected: trX iff 4 bytes are present and are either magic; big-endian iff the big one; format from the extension |
| TrxProps.SetupTrajinResult | src/Traj_GmxTrX.cpp:264-314 | atom-count mismatch is an error; else frameSize_ is the header plus the six block sizes; file size 0 gives unknown frames, not seekable; otherwise nframes = file_size/frameSize_ (as int) and seekable iff it divides; an error only from the box read |
| TrxProps.SetupFramesResult | src/Traj_GmxTrX.cpp:276-310 | the same rule for the part after the atom-count check |
| TrxProps.ReadBoxResult | src/Traj_GmxTrX.cpp:228-242 | ReadBox succeeds iff precision is 4 or 8, box_size is nine values and they remain; then it takes exactly those bytes; a failure keeps the old box |
| TrxProps.AtomVectorDecodes | src/Traj_GmxTrX.cpp:325-340 | ReadAtomVector succeeds iff precision is 4 or 8, size is natom3 values that fit and remain; then value i is the decoded value i, the rest untouched; a failure leaves the output |
| TrxProps.FloatBlockDecodes | src/Traj_GmxTrX.cpp:327-331 | value i of TrxSpec.Floats over the swapped block is the float stored at bytes 4i..4i+4 of the file, in the file's byte order |
| TrxProps.DoubleBlockDecodes | src/Traj_GmxTrX.cpp:333-335 | value i of TrxSpec.Doubles over the block is the double stored at bytes 8i..8i+8 of the file, in the file's byte order |
| TrxProps.BoxOutDegenerate | src/Traj_GmxTrX.cpp:243-259 | the box is {0,0,0,90,90,90} iff a basis vector is zero; otherwise it is the lengths then the angles |
| TrxProps.ReadBoxDegenerate | src/Traj_GmxTrX.cpp:228-259 | the box of a successful ReadBox is degenerate iff one of the three vectors TrxSpec.Basis decodes from it is zero |
| TrxProps.ReadBoxBasis | src/Traj_GmxTrX.cpp:228-242 | a successful ReadBox holds nine values at the header's precision |
| TrxProps.FrameVectorsAdvance | src/Traj_GmxTrX.cpp:358-374 | the vectors part moves past x and v, and past f when not seekable; absent blocks leave X or V untouched |
| TrxProps.FrameAdvance | src/Traj_GmxTrX.cpp:342-377 | a read frame ends after its header and its blocks (f too when not seekable); absent X/V blocks leave X/V untouched |
| TrxProps.ReadFrameIs | src/Traj_GmxTrX.cpp:343-347 | readFrame seeks to frameSize_*set only when seekable, reads the header, and stops if it fails |
| TrxProps.FrameBodyAdvance | src/Traj_GmxTrX.cpp:348-374 | the frame body ends after the box, tensors, x, v and (not seekable) f |
| TrxProps.SequentialMatchesSeek | src/Traj_GmxTrX.cpp:285-287 | a sequential read of frame 0 ends exactly frameSize_ bytes later, where frame 1 starts |
| TrxProps.SequentialAdvance | src/Traj_GmxTrX.cpp:372-374 | a sequential frame read ends after all its blocks including f |
| TrxProps.FrameSizeExact | src/Traj_GmxTrX.cpp:285-287 | frameSize_ is the plain sum when it fits in a size_t |
| TrxProps.OpenTrajinSkipsFrameZero | src/Traj_GmxTrX.cpp:218-223 | as written: after openTrajin a sequential readFrame(0) of a one-frame file fails |
| TrxProps.OpenTrajinRewoundReadsFrameZero | src/Traj_GmxTrX.cpp:218-223 | corrected: frame 0's header is read back from the start of the file |
| TrxProps.FrameVectorsRead | src/Traj_GmxTrX.cpp:358-371 | when the blocks fit, X and V hold the decoded values from their positions |
| TrxProps.BlockRead | src/Traj_GmxTrX.cpp:325-340 | a fitting block is read, the cursor after it, the values decoded |
| TrxProps.VectorsOf | src/Traj_GmxTrX.cpp:358-371 | the vectors part is the X read followed by the V read |
| TrxProps.FrameBodyBox | src/Traj_GmxTrX.cpp:348-357 | a fitting box is read and the tensors skipped before the vectors |
| TrxProps.FrameBodyOk | src/Traj_GmxTrX.cpp:348-377 | a frame body whose blocks fit is read |
| TrxProps.FrameBodyX | src/Traj_GmxTrX.cpp:358-364 | X holds the decoded coordinates |
| TrxProps.FrameBodyV | src/Traj_GmxTrX.cpp:365-371 | V holds the decoded velocities |
| TrxProps.FrameReadsBack | src/Traj_GmxTrX.cpp:342-377 | a written frame is read back: the header fields, and X and V decoded from their blocks |
| TrxReader.GmxTrx.constructor | src/Traj_GmxTrX.cpp:12-34 | all fields zero, little-endian, TRR, no box |
| TrxReader.GmxTrx.FileRead | src/Traj_GmxTrX.cpp:140 | the delivered bytes land at the array front, the cursor after them |
| TrxReader.GmxTrx.IsTRX | src/Traj_GmxTrX.cpp:70-88 | the corrected detection IsTrxChecked, in place |
| TrxReader.GmxTrx.ReadInt | src/Traj_GmxTrX.cpp:105-110 | succeeds iff 4 bytes remain; then the value and the cursor 4 further |
| TrxReader.GmxTrx.ReadReal | src/Traj_GmxTrX.cpp:113-129 | ends in the state and value of TrxSpec.ReadReal |
| TrxReader.GmxTrx.ReadIntoLine | src/Traj_GmxTrX.cpp:138-142 | ends as ReadWhole |
| TrxReader.GmxTrx.ReadString | src/Traj_GmxTrX.cpp:134-163 | ends as TrxSpec.ReadString |
| TrxReader.GmxTrx.ReadChunks | src/Traj_GmxTrX.cpp:143-162 | ends as ReadChunked |
| TrxReader.GmxTrx.ChunkLoop | src/Traj_GmxTrX.cpp:149-153 | the loop appends ChunksText and ends at ChunksEnd |
| TrxReader.GmxTrx.ReadChunk | src/Traj_GmxTrX.cpp:151-152 | one chunk into linebuffer_, returning its C string |
| TrxReader.GmxTrx.ReadTitle | src/Traj_GmxTrX.cpp:166-174 | ends as TrxSpec.ReadTitle |
| TrxReader.GmxTrx.ReadFieldRange | src/Traj_GmxTrX.cpp:176-193 | ends as ReadFields |
| TrxReader.GmxTrx.ReadCounts | src/Traj_GmxTrX.cpp:176-213 | ends as HeaderCounts |
| TrxReader.GmxTrx.ReadReals | src/Traj_GmxTrX.cpp:194-213 | ends as HeaderReals |
| TrxReader.GmxTrx.ReadTrxHeader | src/Traj_GmxTrX.cpp:165-215 | ends as ReadHeader |
| TrxReader.GmxTrx.ReadBox | src/Traj_GmxTrX.cpp:228-242 | ends as TrxSpec.ReadBox |
| TrxReader.GmxTrx.ReadAtomVector | src/Traj_GmxTrX.cpp:325-340 | ends as TrxSpec.ReadAtomVector, the output array updated in place |
| TrxReader.GmxTrx.ReadFloats | src/Traj_GmxTrX.cpp:327-332 | the 4-byte path through farray_ ends as TrxSpec.ReadAtomVector |
| TrxReader.GmxTrx.StoreFloats | src/Traj_GmxTrX.cpp:330-331 | the conversion loop stores Floats(farray_) in the first n places |
| TrxReader.GmxTrx.StoreDoubles | src/Traj_GmxTrX.cpp:333-336 | the byte-order conversion stores Doubles(raw) in the first n places and leaves the rest |
| TrxReader.GmxTrx.ReadDoubles | src/Traj_GmxTrX.cpp:333-336 | the 8-byte path ends as TrxSpec.ReadAtomVector |
| TrxReader.GmxTrx.OpenPastHeader | src/Traj_GmxTrX.cpp:218-223 | as written: ends as TrxSpec.OpenTrajin |
| TrxReader.GmxTrx.OpenTrajin | src/Traj_GmxTrX.cpp:218-223 | corrected: ends as OpenTrajinRewound |
| TrxReader.GmxTrx.SetupTrajin | src/Traj_GmxTrX.cpp:264-314 | ends as TrxSpec.SetupTrajin |
| TrxReader.GmxTrx.SetupFrames | src/Traj_GmxTrX.cpp:276-310 | ends as TrxSpec.SetupFrames |
| TrxReader.GmxTrx.AllocateStage | src/Traj_GmxTrX.cpp:277-280 | ends as StageFor |
| TrxReader.GmxTrx.CountFrames | src/Traj_GmxTrX.cpp:281-303 | ends as TrxSpec.CountFrames |
| TrxReader.GmxTrx.LoadBox | src/Traj_GmxTrX.cpp:304-310 | ends as TrxSpec.LoadBox |
| TrxReader.GmxTrx.ReadFrame | src/Traj_GmxTrX.cpp:342-377 | ends as TrxSpec.ReadFrame, X and V updated in place |
| TrxReader.GmxTrx.ReadFrameBody | src/Traj_GmxTrX.cpp:348-377 | ends as FrameBody |
| TrxReader.GmxTrx.SkipTensors | src/Traj_GmxTrX.cpp:352-357 | ends as TrxSpec.SkipTensors |
| TrxReader.GmxTrx.ReadVectors | src/Traj_GmxTrX.cpp:358-374 | ends as FrameVectors |
| StdSpec.ModeOf | src/DataIO_Std.cpp:40-44 | the read mode is the first of read1d, read2d, vector, mat3x3 given, read1d by default; stated by StdProps.ModeFirstPresent |
| StdSpec.IndexColumnAsWritten | src/DataIO_Std.cpp:45-51 | processReadArgs as written: column 0 is an error, any other value k is stored as k-1, the default -1 included; stated by StdProps.AbsentIndexAsWritten |
| StdSpec.IndexColumn | src/DataIO_Std.cpp:45-51 | the corrected rule: column 0 is an error, k > 0 is stored as k-1, no or a negative column as -1; stated by StdProps.IndexColumnRange |
| StdSpec.WriteSettings | src/DataIO_Std.cpp:438-445 | processWriteArgs: invert, noxcol, noheader set their flags, nosquare2d overrides square2d; stated by StdProps.NoSquareOverrides |
| StdSpec.Parse1D | src/DataIO_Std.cpp:84-130 | Read_1D up to the data sets: the empty-file and no-column errors, the comment loop, the label count check, the index range check and the rows; stated by StdProps.Parse1DFirst, Parse1DLabels, Parse1DRows and Parse1DIndexInRow |
| StdSpec.Parse2D | src/DataIO_Std.cpp:244-280 | Read_2D: skip '#' lines, fix the column count from the first line, fail on a change, collect the values row by row; stated by StdProps.Parse2DShape |
| StdSpec.VectorLayout | src/DataIO_Std.cpp:314-326 | Read_Vector's column rule; stated by StdProps.VectorLayoutRule |
| StdSpec.Mat3x3Layout | src/DataIO_Std.cpp:383-391 | Read_Mat3x3's column rule; stated by StdProps.Mat3x3LayoutRule |
| StdSpec.ParseRows | src/DataIO_Std.cpp:340-359 | the shared row loop of Read_Vector and Read_Mat3x3: the values after the index, zeros beyond, an error at the first changed count; stated by StdProps.ParseRowsShape |
| StdSpec.ParseVectors | src/DataIO_Std.cpp:300-359 | Read_Vector: skip '#' lines, the layout rule, then the row loop; stated by StdProps.ParseVectorsShape |
| StdSpec.ParseMat3x3 | src/DataIO_Std.cpp:371-424 | Read_Mat3x3: skip '#' lines, the layout rule, then the row loop; stated by StdProps.ParseMat3x3Shape |
| StdSpec.Marked | src/DataIO_Std.cpp:451-460 | a left-aligned name without '#' gets '#' in front and is cut to the width; stated by StdProps.MarkedHash |
| StdSpec.HeaderName | src/DataIO_Std.cpp:451-464 | the marked name with spaces replaced; stated by StdProps.HeaderNameShape and HeaderNameIdempotent |
| StdSpec.GridLabel | src/DataIO_Std.cpp:626-629 | "#Frame" without axis labels, else "#x-y"; stated by StdProps.GridHeaderUncut |
| StdSpec.Set2DHeader | src/DataIO_Std.cpp:601-649 | WriteSet2D's status and header text; stated by StdProps.Set2DHeaderCases |
| StdSpec.WordEnd | src/DataIO_Std.cpp:37 | a token runs to the next separator or the end of the line |
| StdSpec.Tokens | src/DataIO_Std.cpp:37 | every token is non-empty and holds no separator |
| StdSpec.RunLength | src/DataIO_Std.cpp:207-211 | the rows read stay within the file |
| StdSpec.FirstData | src/DataIO_Std.cpp:244-246 | the first data line comes at or after the start; that it is the first line not starting with '#' is StdProps.FirstDataSkips |
| StdSpec.SkipSpace | src/DataIO_Std.cpp:99 | skipping whitespace leaves no leading whitespace |
| StdSpec.ScanLabels | src/DataIO_Std.cpp:95-118 | the comment loop stops within the file, right after a label line when it moved |
| StdSpec.ColumnCheck | src/DataIO_Std.cpp:250-262 | the first line whose count changes lies at or after the first data line |
| StdSpec.FixedRow | src/DataIO_Std.cpp:353-357 | a row buffer always has its full width |
| StdSpec.FixedRows | src/DataIO_Std.cpp:346-358 | one buffer per line |
| StdSpec.RunFills | src/DataIO_Std.cpp:207-211 | a run to the end of the file has every line at n tokens |
| StdSpec.Underscored | src/DataIO_Std.cpp:462-464 | every space becomes '_' and every other character stays |
| StdProps.ModeFirstPresent | src/DataIO_Std.cpp:40-44 | the mode is the first present of read1d, read2d, vector, mat3x3, read1d by default, each as an iff |
| StdProps.AbsentIndexAsWritten | src/DataIO_Std.cpp:45-51 | as written: no index keyword stores indexcol_ = -2 |
| StdProps.IndexColumnRange | src/DataIO_Std.cpp:45-51 | corrected: error iff column 0; column k > 0 stores k-1; no or negative column stores -1 |
| StdProps.IndexColumnAgrees | src/DataIO_Std.cpp:45-51 | for a column >= 1 the corrected and the written rule agree |
| StdProps.NoSquareOverrides | src/DataIO_Std.cpp:438-444 | square2d iff square2d and not nosquare2d; noxcol and noheader negate their flags; mode and index unchanged |
| StdProps.RunMaximal | src/DataIO_Std.cpp:207-211 | the rows read all have ntoken tokens, and the line after them does not |
| StdProps.ScanPasses | src/DataIO_Std.cpp:95-118 | every line the comment loop passes is a label line |
| StdProps.ScanStops | src/DataIO_Std.cpp:97-118 | the comment loop stops at a line that is not a label line |
| StdProps.ScanKeepsLast | src/DataIO_Std.cpp:101-108 | the labels kept are those of the last label line |
| StdProps.ScanIndex | src/DataIO_Std.cpp:105-107 | the index becomes 0 iff it was -1 and a passed label line starts with Frame |
| StdProps.Parse1DRead | src/DataIO_Std.cpp:84-130 | a successful 1D read starts at the line where the comment loop stopped and counts its tokens |
| StdProps.Parse1DFirst | src/DataIO_Std.cpp:84-118 | all lines before the first data line are label lines, that line is not, and no data line is "No data found" |
| StdProps.Parse1DIndex | src/DataIO_Std.cpp:105-107 | the 1D index is 0 iff none was given and a label line names Frame first |
| StdProps.Parse1DLabels | src/DataIO_Std.cpp:119-125 | the labels are those of the line before the data, kept only when their count equals the token count |
| StdProps.Parse1DRows | src/DataIO_Std.cpp:120-130 | a 1D read takes at least one row, every row with ntoken tokens, stopping at the first different line |
| StdProps.Parse1DIndexInRow | src/DataIO_Std.cpp:126-130 | with an index of -1 or more, a successful read's index column lies within the row |
| StdProps.AbsentIndexMisreads | src/DataIO_Std.cpp:45-51 | as written: with no index keyword Read_1D sees -2, which passes its check yet is no column |
| StdProps.DataLineTokens | src/DataIO_Std.cpp:37 | "1 2.5" splits into "1" and "2.5" |
| StdProps.CommentLineTokens | src/DataIO_Std.cpp:37 | "Frame Value" splits into its two words |
| StdProps.ExampleTokens | src/DataIO_Std.cpp:101-102 | "#Frame Value" is a label line with labels Frame and Value; "1 2.5" is data with 2 tokens |
| StdProps.ExampleScan | src/DataIO_Std.cpp:95-118 | on a two-line Frame file the loop stops at line 1 with the labels, index 0 unless one was given |
| StdProps.FrameFileExample | src/DataIO_Std.cpp:45-51 | as written the Frame file reads with index -2; corrected with index 0 and its labels |
| StdProps.RowValuesRows | src/DataIO_Std.cpp:263-264 | the matrix holds n values per row, row r at r*n..r*n+n |
| StdProps.FirstDataSkips | src/DataIO_Std.cpp:244-246 | every line skipped before the first data line starts with '#', and the first data line does not (also at lines 301-303 and 372-374) |
| StdProps.Parse2DShape | src/DataIO_Std.cpp:244-280 | a 2D read is ncols by nrows in row order from the first data line, all rows equal in count; each error names its cause exactly |
| StdProps.MatrixRows | src/DataIO_Std.cpp:263-264 | lines of n tokens give n values per row in order |
| StdProps.VectorLayoutRule | src/DataIO_Std.cpp:314-326 | accepted iff 3,4,6,7,9,10 columns; index iff 4,7,10; 6 values from 6 columns up, else 3 |
| StdProps.Mat3x3LayoutRule | src/DataIO_Std.cpp:383-391 | accepted iff 9 or 10 columns; index iff 10; 9 values |
| StdProps.FixedRowsAt | src/DataIO_Std.cpp:346-358 | row k is the fixed row of line k |
| StdProps.ParseRowsShape | src/DataIO_Std.cpp:346-358 | rows take the values after the index, zeros beyond; an error is the first line whose count changes |
| StdProps.ParseVectorsShape | src/DataIO_Std.cpp:301-359 | vector rows as the layout rule says; each error as the source reports it |
| StdProps.ParseMat3x3Shape | src/DataIO_Std.cpp:372-424 | 3x3 rows are the 9 values after the index; each error as the source reports it |
| StdProps.UnderscoredFixed | src/DataIO_Std.cpp:462-464 | a name without spaces is unchanged |
| StdProps.UnderscoredConcat | src/DataIO_Std.cpp:462-464 | the replacement works character by character |
| StdProps.HeaderNameShape | src/DataIO_Std.cpp:451-464 | no spaces remain; a left-aligned name without '#' gets '#' and is cut to width; otherwise only spaces change |
| StdProps.MarkedHash | src/DataIO_Std.cpp:453-459 | the marked name is '#' then the name, cut to width |
| StdProps.HeaderNameIdempotent | src/DataIO_Std.cpp:451-464 | formatting a formatted name again changes nothing |
| StdProps.GridHeaderUncut | src/DataIO_Std.cpp:626-630 | the grid cell is "#Frame" with no labels, else "#x-y" with spaces replaced |
| StdProps.UnderscoredAxes | src/DataIO_Std.cpp:626-630 | the replacement goes through "#x-y" label by label |
| StdProps.Set2DHeaderCases | src/DataIO_Std.cpp:602-649 | error iff not 2D; no header without writeHeader_; the grid cell when square; else "#x y legend" |
| StdIO.DataIOStd.constructor | src/DataIO_Std.cpp:15-22 | mode read1d, no index, not inverted, x column and header on, not square |
| StdIO.DataIOStd.ProcessReadArgs | src/DataIO_Std.cpp:39-53 | sets the mode of ModeOf and the corrected IndexColumn, nothing else |
| StdIO.DataIOStd.ProcessWriteArgs | src/DataIO_Std.cpp:438-445 | sets the write flags of WriteSettings, status 0 |
| StdIO.DataIOStd.SkipWhite | src/DataIO_Std.cpp:99 | the pointer stops where SkipSpace says |
| StdIO.DataIOStd.CommentLabels | src/DataIO_Std.cpp:99-108 | a label line iff '#' after whitespace; then its labels |
| StdIO.DataIOStd.ScanComments | src/DataIO_Std.cpp:95-118 | the comment loop ends as ScanLabels, updating indexcol_ only |
| StdIO.DataIOStd.ScanLines | src/DataIO_Std.cpp:95-118 | the loop over lines ends as ScanLabels |
| StdIO.DataIOStd.CountRows | src/DataIO_Std.cpp:207-211 | counts RunLength rows |
| StdIO.DataIOStd.Read1D | src/DataIO_Std.cpp:71-130 | gives Parse1D, updating indexcol_ only |
| StdIO.DataIOStd.SkipComments | src/DataIO_Std.cpp:244-246 | stops at FirstData |
| StdIO.DataIOStd.Read2D | src/DataIO_Std.cpp:236-283 | gives Parse2D |
| StdIO.DataIOStd.ReadRows | src/DataIO_Std.cpp:346-359 | gives ParseRows |
| StdIO.DataIOStd.FillRow | src/DataIO_Std.cpp:353-357 | the buffer becomes FixedRow |
| StdIO.DataIOStd.ReadVector | src/DataIO_Std.cpp:293-361 | gives ParseVectors |
| StdIO.DataIOStd.ReadMat3x3 | src/DataIO_Std.cpp:364-426 | gives ParseMat3x3 |
| StdIO.DataIOStd.WriteNameToBuffer | src/DataIO_Std.cpp:448-464 | the name written is HeaderName |
| StdIO.DataIOStd.WriteSet2DHeader | src/DataIO_Std.cpp:601-649 | status and header of Set2DHeader for the object's settings |

## Left out

- TrxSpec.ReadBox: a box_size other than nine values at the precision (36 or 72 bytes) is refused. The source reads box_size bytes into a nine-value array, so a smaller block leaves values uninitialised and a larger one overruns the array.
- TrxSpec.ReadAtomVector: a size other than natom3 values at the precision, or a float block larger than farray_, is refused. The source reads size bytes into an array of natom3 values, with the same uninitialised values or overrun.
- TrxSpec.ReadAtomVector: on a short read of the 8-byte path the model leaves the output unchanged. The source reads straight into Dout, so it has already overwritten the bytes the read delivered. The 4-byte path is modelled as written: farray_ receives the delivered bytes and Dout is untouched. TrxProps.AtomVectorDecodes and TrxReader.GmxTrx.ReadDoubles state the model's rule.
- TrxSpec.ReadFields: a short read of an int keeps the field's old value. The source's read_int has already copied the delivered bytes into the low bytes of the field. The same holds for TrxSpec.ReadReal and TrxReader.GmxTrx.ReadInt.
- TrxSpec.ReadString: a negative length gives the empty string, with the cursor after the length field. The source then writes linebuffer_[size], outside the buffer.
- The line buffer size BUF_SIZE is taken as 128 bytes, because Traj_GmxTrX.h is not part of this model.
- TrxSpec.BoxOut: the sqrt, acos and unit arithmetic of ReadBox is not computed. The lengths and angles are parameters. LengthsOf constrains the lengths: each is non-negative, and zero exactly when its basis vector is zero. Only the degenerate rule is proved.
- Floats and doubles stay as their bytes. The float-to-double widening and the ×10 unit scaling of the 4-byte path are named by the Coordinate constructor FromFloat, not computed.
- TrxSpec.ReadFrame: the seek offset frameSize_ * set is not reduced modulo 2^64.
- ByteOrder.Int32: the host is taken to be little-endian. ByteRoutines.h is not part of this model; endian_swap is taken to reverse each 4- or 8-byte group.
- File opening, closeTraj, ID_TrajFormat, the diagnostic messages (mprintf, mprinterr, GmxInfo, Info) and the setupTrajout and writeFrame stubs are I/O or printing.
- StdIO.DataIOStd.constructor: the source's constructor does not initialise indexcol_. The model starts it at -1.
- StdSpec.Tokens: BufferedLine is not part of this model. The file is given as its lines, and tokenising is splitting at " ,\t".
- The number parsing (atof, validInteger, validDouble), the data sets Read_1D creates and fills, their type checks, and the index column's string warning are library and framework calls that are not part of this model. Cells are kept as tokens.
- StdSpec.FirstCount: when only comment lines remain, the vector and 3x3 readers tokenise no line. The model counts 0 tokens, so the reader fails with NoTokens.
- StdIO.DataIOStd.WriteNameToBuffer: the TextFormat padding and the direct write for widths of BUF_SIZE or more are printing. Only the name string is modelled; a negative width is not.
- StdIO.DataIOStd.WriteSet2DHeader: the coordinate rows and the x coordinates after the grid cell are printing through TextFormat. WriteData, WriteDataNormal, WriteDataInverted, WriteData3D, WriteSet3D, Read_3D and ReadData's dispatch are outside the modelled core.

## Findings

| source | as written | input that shows it | evidently intended | confidence | as-written member | corrected member |
|---|---|---|---|---|---|---|
| src/Traj_GmxTrX.cpp:72 | IsTRX returns 1, which converts to true, when fewer than 4 bytes can be read | any file of 0 to 3 bytes is reported as a TRR/TRJ trajectory | a short read means "not a trX file" (false) | high; not executed | TrxProps.IsTrxShortRead (about TrxSpec.IsTrx) | TrxReader.GmxTrx.IsTRX and TrxProps.IsTrxCheckedExact (about TrxSpec.IsTrxChecked) |
| src/Traj_GmxTrX.cpp:218-223 | openTrajin leaves the cursor after the first header; setupTrajin then reads the box from there. A non-seekable readFrame(0) starts reading a header at that cursor | a valid one-frame file whose data after the header is shorter than a header, on a non-seekable stream: readFrame(0) fails | frame 0 is read from the start of the file | medium; not executed | TrxReader.GmxTrx.OpenPastHeader and TrxProps.OpenTrajinSkipsFrameZero (about TrxSpec.OpenTrajin) | TrxReader.GmxTrx.OpenTrajin and TrxProps.OpenTrajinRewoundReadsFrameZero (about TrxSpec.OpenTrajinRewound) |
| src/DataIO_Std.cpp:45-51 | processReadArgs stores the user's column minus one even when no index was given, so the default -1 becomes -2; Read_1D tests for -1 (lines 106 and 126) | no index keyword and a file "#Frame Value" / "1 2.5": indexcol_ is -2, the Frame label does not select column 0, and -2 passes the range check | no index keeps -1, so Frame selects column 0 | high; not executed | StdProps.AbsentIndexMisreads and StdProps.FrameFileExample (about StdSpec.IndexColumnAsWritten) | StdIO.DataIOStd.ProcessReadArgs and StdProps.Parse1DIndexInRow (about StdSpec.IndexColumn) |
