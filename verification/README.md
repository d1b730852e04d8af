# Pseudo-assembly code generator: a Dafny model

This project models the code generator of `CodeGenerator.java`. The generator
lowers an abstract syntax tree of five node kinds to an ordered list of
pseudo-assembly lines that work on an accumulator (`eax`), a second register
(`ebx`) and a stack. The node kinds are integer constants, variables, binary
operations, `let` bindings and `while` loops.

- `Ast.Node` is the tree. Its `While` nodes carry the label they received
  when they were constructed.
- `CodeGen.Generate` is the lowering, node kind by node kind.
- `CodeGen.GenerateCode` builds the same list step by step, as the Java
  `generateCode()` methods do with `add` and `addAll`. It is proved equal to
  `Generate`. It has no `modifies` clause, so generating code changes no node
  and does not touch the label counter. Generating the same tree twice
  therefore gives the same lines.
- `WhileLabels.WhileLabelCounter` is the static `labelCount` of `WhileNode`.
  Its `NewWhile` method is the `WhileNode` constructor. Java `int`
  arithmetic is written out: after 2^31 - 1 the counter wraps to -2^31.
- `Decimal` renders Java `int` values as decimal text, as Java string
  concatenation does. It proves that distinct values render differently.

What is proved, beyond the shape of each node kind's output:

- **Stack discipline** (`StackDiscipline`). Every generated list pushes and
  pops in matched pairs, and no prefix pops more than it pushed. So the
  `pop ebx` of a binary operation always takes back the left operand its own
  `push eax` saved.
- **Label lines follow loops** (`LoopLabels`). Each of a loop's four label
  lines occurs in the code once for every loop of the tree that carries
  that label. The four lines are its start label, exit jump, back jump and
  end label. So every jump has its target in the code. When the loops carry
  distinct labels, every label line occurs exactly once.
- **Label allocation** (`WhileLabels`). Each construction takes the current
  counter value and adds one. The first 2^32 loops all get different labels.

Facts about the code that the model keeps:

- The `/` tail is 3 lines and the `mod` tail is 4 lines (CodeGenerator.java:59-69).
- `let n = 2 + 3` lowers to 6 lines (`LetSumExample`).
- The code has five node kinds and one label counter, the one of `WhileNode`.

## Model

| member | source | states |
|---|---|---|
| `CodeGen.NumberShape` | CodeGenerator.java:17-19 | A constant gives exactly one line: `mov eax, ` followed by the constant's decimal text. |
| `CodeGen.VariableShape` | CodeGenerator.java:31-33 | A variable gives exactly one line: `mov eax, ` followed by the variable's name. |
| `CodeGen.BinaryOpShape` | CodeGenerator.java:48-53 | A binary operation's code is the whole left operand code, then `push eax`, then the whole right operand code, then `pop ebx`, then the operator's tail. Its length is the sum of those parts. |
| `CodeGen.OperatorTail` | CodeGenerator.java:55-70 | The tail is empty exactly when the tag is not one of `+ - * / mod`. A tail never contains `push eax` or `pop ebx`. |
| `CodeGen.OperatorTailLength` | CodeGenerator.java:55-70 | The tail is 1 line for `+`, `-` and `*`, 3 lines for `/`, 4 lines for `mod`, and 0 lines for any other tag. |
| `CodeGen.UnsupportedOperator` | CodeGenerator.java:53-70 | For an unsupported tag such as `>`, the code is only the operand evaluation and ends with `pop ebx`. |
| `CodeGen.LetShape` | CodeGenerator.java:86-91 | A `let` gives the value's code followed by one store line, `mov <name>, eax`. The store line is last and the length is one more than the value's code. |
| `CodeGen.WhileShape` | CodeGenerator.java:108-117 | A loop gives, in order: the start label, the condition's code, `jz` to the end label, the body's code, `jmp` to the start label, and the end label. Its length is the condition's plus the body's plus 4. |
| `CodeGen.LetSumExample` | CodeGenerator.java:48-91 | `let n = 2 + 3` lowers to load 2, push, load 3, pop, add, and store into `n`, in that order. |
| `CodeGen.GenerateCode` | CodeGenerator.java:47-117 | Building the list by successive appends yields exactly the lowering `Generate`. The method changes no state. |
| `CodeGen.AppendOperatorTail` | CodeGenerator.java:55-70 | The `switch` appends exactly the operator's tail to the list built so far. |
| `StackDiscipline.GenerateWellNested` | CodeGenerator.java:49-53 | Every generated list has as many pushes as pops. No prefix of it has more pops than pushes. |
| `LoopLabels.LabelLineInjective` | CodeGenerator.java:110-115 | Two label lines are equal only when they have the same kind and the same label. |
| `LoopLabels.LabelLinesFollowLoops` | CodeGenerator.java:108-117 | Each label line of label `l` occurs in the code exactly as many times as loops of the tree carry label `l`. |
| `LoopLabels.JumpTargetsDefined` | CodeGenerator.java:112-115 | A `jmp debut_while_l` in the code implies the line `debut_while_l:` is there too. A `jz sortie_while_l` implies `sortie_while_l:` is there. |
| `LoopLabels.DistinctLabelsOnce` | CodeGenerator.java:104-117 | If the loops of a tree carry distinct labels, each loop's start label, exit jump, back jump and end label occur exactly once. No label line occurs for a label that no loop carries. |
| `Decimal.IntToStringInjective` | CodeGenerator.java:110-115 | Two integers render to the same text exactly when they are equal. |
| `Decimal.IntToStringDigits` | CodeGenerator.java:18 | A rendered integer is decimal digits, with a leading minus sign exactly when the integer is negative. |
| `Decimal.WrapSucc` | CodeGenerator.java:104 | Incrementing a wrapped `int` gives the same result as wrapping the exact successor. |
| `WhileLabels.IssuedLabel` | CodeGenerator.java:98-104 | The k-th loop constructed gets label k while k fits in an `int`. |
| `WhileLabels.IssuedLabelsDistinct` | CodeGenerator.java:98-104 | Any two of the first 2^32 loops constructed get different labels. |
| `WhileLabels.FreshLoopDistinct` | CodeGenerator.java:98-105 | A loop built with the counter's next label, over a condition and body whose labels are distinct and were all issued earlier, has distinct labels throughout. |
| `WhileLabels.NextLabel` | CodeGenerator.java:104 | The counter goes up by exactly one, except at 2^31 - 1, where it wraps to -2^31. |
| `WhileLabels.WhileLabelCounter.constructor` | CodeGenerator.java:98 | The counter starts at 0 with no labels issued. |
| `WhileLabels.WhileLabelCounter.NewWhile` | CodeGenerator.java:101-105 | The new loop takes the old counter value as its label. The counter becomes the old value plus one, with `int` wrap-around. The label differs from every label issued before, as long as fewer than 2^32 loops came earlier. If the condition's and body's labels are distinct and all issued earlier, the new loop's labels are distinct. |
| `WhileLabels.ConstructTwo` | CodeGenerator.java:101-105 | Two loops constructed one after the other get consecutive labels, and the two labels differ. The counter ends two increments on, and both labels are recorded as issued, in order. |

## Left out

- `CodeGenerator.main` (CodeGenerator.java:122-202) is not part of this model. It builds example trees, adds the data-segment and code-segment lines, and prints. Printing is I/O.
- The machine meaning of the emitted instructions is not modelled, for example whether the `div` sequences compute a quotient or a remainder. The code only promises lines of text.
- Concurrent use of the static counter is not modelled. The model has a single sequential counter.
- Null references are not modelled. A `Node` value always has its children, and every string in it is a real string.
  - A null child makes `generateCode()` throw a `NullPointerException` when the parent reaches it (CodeGenerator.java:50, :52, :88, :111, :113).
  - A null `op` makes `switch (op)` throw a `NullPointerException` (CodeGenerator.java:55). This happens after both operands' code and `pop ebx` have been added, so the list under construction is lost.
  - A null variable name at CodeGenerator.java:32 or a null `let` name at CodeGenerator.java:89 does not fail. Java string concatenation renders it as the text `null`, giving `mov eax, null` or `mov null, eax`.
- Sharing one node object in two places of a tree is not modelled. The model treats trees as values. A `WhileNode` object used twice would repeat its label, and `DistinctLabelsOnce` takes distinct labels as its hypothesis for that reason.
