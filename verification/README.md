# Spectrum analyser display logic, modelled in Dafny

The firmware samples an audio signal, runs a 64-point FFT and draws a
16-column bar graph on a two-row character LCD. A push button cycles a display
gain (shown to the user as "Volume"). This project models the integer decision
logic of that firmware, which lives in `src/main.c`:

- `CInt` (`c_int.dfy`) covers the C integer conventions the code relies on. `uint8_t` arguments wrap modulo 256, and `/` and `%` truncate toward zero.
- `Lcd` (`lcd.dfy`) treats the display as a list of `(address, character code)` writes into display RAM. `lcd_puts` writes at consecutive addresses. `lcd_putd` renders a number with `itoa` in base ten.
- `Glyphs` (`glyphs.dfy`) is the custom glyph table `cc`. Glyph `k` lights its bottom `k + 1` pixel rows.
- `BarGraph` (`bar_graph.dfy`) is `print_at_pos`. It splits a level from 0 to 15 over the two cells of a column. Levels of 16 and above write nothing.
- `ScaleControl` (`scale_control.dfy`) is the body of the button interrupt handler, written as a step function. It takes the globals `scale` and `divs` and the port-D reading taken after the settle delay. It returns the new globals and the "Volume: NN%" writes.
- `Binning` (`binning.dfy`) is the index arithmetic of the binning loop, `findex = N/2 + i*per_bin + j`. It also defines which FFT outputs feed each display bin.
- `RenderPass` (`render_pass.dfy`) is one drawing pass of the main loop. Each magnitude is clamped to 15, multiplied by `scale`, and drawn in column `nb_bins-1-i`. The pass is specified by the whole display it leaves behind: drawn columns show their bars and every other address keeps its old contents.

Four behaviours of `main.c` that the model keeps exactly:

- For levels 8 to 15 the upper cell gets character code `val` itself. The display shows the same glyph for codes `k` and `k + 8`. `BarGraph.CellRows` uses that mapping only to state the pixel height of a column. The renderer keeps the literal code.
- The level is the clamped magnitude times the gain *index* `scale` (0 to 3). At index 0 every bar is drawn at level 0.
- `scale` starts at 1. The first confirmed press shows "Volume: 50%".
- The clamp to 15 comes before the multiplication. At gain index 2 or 3, any magnitude of 8 or 6 and above (respectively) gives a level of 16 or more. Such a column is not redrawn and keeps stale contents. The model reproduces this behaviour (`RenderPass.LoudBinNotDrawn`).

## Model

| member | source | states |
|---|---|---|
| CInt.ToByte | src/main.c:56-68 | Conversion to `uint8_t` keeps the value modulo 256 and leaves values 0..255 unchanged. |
| CInt.CDiv | src/main.c:131 | C integer division truncates toward zero: the remainder is smaller than the divisor in magnitude and has the sign of the dividend. For non-negative operands it equals floor division. |
| CInt.CRem | src/main.c:125 | C `%` completes `a == b*(a/b) + a%b` and carries the sign of `a`. For non-negative operands it equals the mathematical remainder. |
| Lcd.PutsAt | src/main.c:129-133 | Writing a string after `lcd_goto` puts character `k` at address `addr + k`, one write per character, and text of single-byte characters reads back unchanged from the codes written. |
| Lcd.PutsAtText | src/main.c:130 | Text made of single-byte characters reads back unchanged from the codes written. |
| Lcd.Decimal | src/main.c:74-79 | `itoa` base-ten text is non-empty and starts with `-` exactly for negative numbers. |
| Lcd.Digits | src/main.c:76 | The digits are decimal digits with no leading zero, and a single digit is used exactly for values below 10. |
| Lcd.DecimalRoundTrip | src/main.c:74-79 | Parsing the decimal text back gives the number that was rendered, for every integer. |
| Lcd.DecimalTwoDigits | src/main.c:131-132 | A readout value in [0, 100) takes one or two characters. |
| Glyphs.CcIsBottomFilled | src/main.c:19-28 | Table row `k` equals the reference glyph whose last `k + 1` rows are 0xFF and whose earlier rows are 0x00. |
| Glyphs.LitRowsOfBlock | src/main.c:19-28 | A glyph with dark rows on top of lit rows has as many lit rows as the lit block. |
| Glyphs.GlyphHeight | src/main.c:19-28 | Glyph `k` lights `k + 1` rows, one more than glyph `k - 1`. Glyph 7 is fully lit. |
| BarGraph.PrintAtPos | src/main.c:56-71 | Nothing is written exactly when `val >= 16`. Otherwise there are two writes: first at `pos`, then at `pos + 0x40`. |
| BarGraph.WrittenCodes | src/main.c:59-68 | For a non-negative level, every code written is `' '` or lies in [0, 15]. |
| BarGraph.UpperCellSplit | src/main.c:59-68 | The upper cell is blank if and only if the level is below 8, so levels 7 and 8 differ there. Below 8 the lower cell gets code `val`. From 8 up the upper cell gets code `val` itself (not `val - 8`) and the lower cell gets the full glyph 7. |
| BarGraph.GlyphCellRows | src/main.c:61-62 | A cell holding code `c < 16` shows glyph `c % 8`, which has `c % 8 + 1` lit rows. |
| BarGraph.BarHeight | src/main.c:54-71 | A drawn column of level `val` lights `val + 1` pixel rows across its two cells, so each level step adds one row. |
| ScaleControl.OnButtonEdge | src/main.c:121-135 | If the pin reads released after the settle delay, the globals are unchanged and nothing is written. Otherwise `scale` becomes `(scale + 1) % divs` and the "Volume" readout of the new value is written; the new state is the one `Press` gives. A state with `0 <= scale < divs` stays in that range. |
| ScaleControl.ModSucc | src/main.c:125 | Reducing before or after the increment gives the same index. |
| ScaleControl.Press | src/main.c:125 | One confirmed press keeps `divs` and, from a valid state, advances the index by one, modulo `divs`. |
| ScaleControl.PressesAdvance | src/main.c:125 | `k` confirmed presses advance the index by `k` modulo `divs` and keep it in range. |
| ScaleControl.PressesCycle | src/main.c:117-125 | `divs` confirmed presses return the index to where it started. |
| ScaleControl.InitValid | src/main.c:117-118 | The initial globals (`scale = 1`, `divs = 4`) are in range, and so is every state reached from them by presses. |
| ScaleControl.VolumeBounds | src/main.c:131 | For an index in [0, divs), `scale * (100/divs)` is in [0, 100) and is a multiple of `100/divs`. |
| ScaleControl.VolumeFourSteps | src/main.c:131 | With four steps, the readout values are exactly {0, 25, 50, 75}. |
| ScaleControl.ReadoutReadsBack | src/main.c:129-133 | The readout is written at 0x05..0x0F, inside the first row. It reads "Volume: ", then the digits, then '%', and the digits parse back to the percentage. |
| ScaleControl.PressFromZero | src/main.c:124-133 | From index 0 with four steps, a confirmed press gives index 1 and writes "Volume: 25%". |
| ScaleControl.PressFromInit | src/main.c:117-133 | From the initial index 1 with four steps, a confirmed press gives index 2 and writes "Volume: 50%". |
| Binning.BinIndices | src/main.c:184-185 | Display bin `i` reads `per_bin` outputs in strictly increasing index order, and for `0 <= i < nb_bins` every one of them lies in the upper half [N/2, N). |
| Binning.FirmwarePerBin | src/main.c:156-166 | With N = 64 and 16 display bins, each display bin sums two FFT outputs. |
| Binning.IndexInUpperHalf | src/main.c:181-185 | Every index read lies in [N/2, N). |
| Binning.ScanOrderConsecutive | src/main.c:181-185 | The first `count` display bins read `N/2 .. N/2 + count*per_bin - 1`, each once and in increasing order. |
| Binning.ScanCoversUpperHalf | src/main.c:181-185 | For an even N that `nb_bins` divides in half, one pass reads exactly `N/2 .. N-1`, each once, in strictly increasing order. |
| Binning.GroupsPartition | src/main.c:181-185 | Each index of the scanned range belongs to exactly one pair (display bin, slot), given by quotient and remainder by `per_bin`. |
| Binning.GroupInRange | src/main.c:184-187 | All outputs summed for one display bin are valid indices of the upper half. |
| Binning.Group | src/main.c:184-187 | The group of display bin `i` holds the outputs at `N/2 + i*per_bin + j`, in summation order. |
| Binning.BinMagnitudesLocal | src/main.c:181-189 | Magnitude `i` depends on group `i` alone: two spectra that agree on the outputs `N/2 + i*per_bin + j` give display bin `i` the same magnitude. |
| RenderPass.Clamp | src/main.c:190 | After the clamp the magnitude is at most 15. It is unchanged unless it was above 15, in which case it becomes 15. |
| RenderPass.RenderFrom | src/main.c:181-192 | The drawing loop only writes cells of the graph, namely bins it has not yet passed. |
| RenderPass.RenderFromEffect | src/main.c:181-192 | After the loop from bin `i` on, every drawn cell of a bin `>= i` holds that bin's code. Every other address keeps its old contents. |
| RenderPass.RenderShows | src/main.c:181-192 | One pass leaves exactly the display `Shown`: drawn columns show their `print_at_pos` codes and every other address is unchanged, including the columns of skipped bins. |
| RenderPass.ColumnBijection | src/main.c:191 | `nb_bins-1-i` maps [0, nb_bins) one-to-one onto itself and is its own inverse. Bin 0 goes to column 15. |
| RenderPass.LevelBounds | src/main.c:190-191 | For a non-negative magnitude and a valid gain state, the clamped magnitude is in [0, 15] and the level is in [0, 15*(divs-1)]. |
| RenderPass.LoudBinNotDrawn | src/main.c:190-191 | With gain index 2 or more, a magnitude of 8 or more is not drawn at all. |
| RenderPass.LowGainAlwaysDrawn | src/main.c:190-191 | With gain index 0 or 1, every non-negative magnitude is drawn. The level is 0, or the clamped magnitude, respectively. |
| RenderPass.SilentSpectrum | src/main.c:181-192 | If every magnitude is 0, every column shows a blank upper cell over glyph 0, whatever the gain. |
| RenderPass.IterationStaysInGraph | src/main.c:165-192 | One iteration with N = 64 and 16 bins writes only columns 0..15 of the two rows. |

## Left out

- The FFT (`kiss_fft`, `kiss_fft_alloc`) is an external floating-point library. Its output is a generic sequence, and the binner only decides which outputs feed which bin.
- The per-bin magnitude is a caller-supplied function of the bin's group (`Binning.BinMagnitudes`). This covers the float sums `r_bin += fout[...].r` with their truncation to `int`, `sqrt`, and the `(int)` cast. These are floating-point numerics.
- The sampling loop, including the ADC normalisation `ADC/1024`, is not modelled. It is register I/O with float values.
- `initADC0`, `delay_us`, `delay_ms` and the direct register accesses are left out. They are hardware I/O and busy-wait timing. The two 300 ms delays of the handler are left out for the same reason.
- Interrupt preemption is left out, and so is the main loop stalling during the handler. The handler is a sequential step with the pin reading as an input.
- The LCD driver (`lcd_init`, `lcd_command`, `lcd_goto`, `lcd_putc`, `lcd_puts`) is not part of this model. Nor is the glyph upload `build_custom_chars`. Writes are abstract `(address, code)` events.
- `itoa` is modelled by its result, the base-ten text. The 8-byte buffer is not modelled.
- `initial_print` is unused test code.
- The endless `while (1)` is modelled as one iteration of the drawing pass (`RenderPass.Iteration`).
- The 16-bit width of AVR `int` is not modelled. All values reachable from the initial state are small: index at most 3, level at most 45, readout at most 75.
- RenderPass.Render: requires at most 64 display bins (the firmware uses 16), so that the two rows' cells do not overlap.
- ScaleControl.OnButtonEdge: the cyclic-advance ensures is stated only for states with `0 <= scale < divs`. These are all the states reachable from the initial one. Outside that range the C remainder (`CInt.CRem`) is modelled but not characterised further.
