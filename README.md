# minitorch operators in Dafny

This project models the operator library of minitorch (`minitorch/operators.py`).
The library has two layers:

- **Scalar operators.** These are `mul`, `id`, `add`, `neg`, `lt`, `eq`, `max`, `is_close`, `relu` and `inv`. There are also three backward (derivative) forms: `log_back`, `inv_back` and `relu_back`. Python floats are modelled as Dafny `real`. These live in module `Operators` (`operators.dfy`).
- **Combinators and list utilities.** The combinators are `map`, `zipWith` and `reduce`. The list utilities `negList`, `addLists`, `sum` and `prod` are built from them. These live in module `Combinators` (`combinators.dfy`).

In Python the combinators are curried: `map(fn)(ls)`. Here they take both arguments at once: `Map(fn, ls)`. Function arguments are total Dafny arrows. Lists are finite sequences.

`reduce` copies its input into a list and starts from `0`. It takes the first element when there is one, then reassigns `result = fn(result, x)` for each later element. It is modelled as the method `Reduce`, whose loop invariant is that `result` is the left fold of the prefix read so far. `Reduce` is proved equal to the recursive specification `ReduceSpec`. `ReduceSpec` is 0 on the empty list; otherwise it is `FoldLeft` seeded with the first element. `sum` and `prod` call `reduce`, so they are methods too.

- `Sum` returns the mathematical sum `SeqSum` for every list, including the empty one.
- `Prod` returns the mathematical product `SeqProd` for non-empty lists. On the empty list it returns `0`, not the empty product `1`. This is because `reduce` starts from the literal `0` (minitorch/operators.py:153) whatever `fn` is. `Prod` states both cases.

`max` returns `x if x > y else y`, so on a tie it returns its second argument `y`. Over the reals a tie means `x == y`, so the choice does not change the value. It would matter only for IEEE floats, as in `max(0.0, -0.0)`, which are outside this model.

## Model

| member | source | states |
|---|---|---|
| Operators.Mul | minitorch/operators.py:38-40 | the product is zero exactly when a factor is zero, and dividing it by a non-zero `y` gives `x` back |
| Operators.Id | minitorch/operators.py:43-45 | the result is the argument, unchanged |
| Operators.Add | minitorch/operators.py:48-50 | subtracting either summand from the sum gives the other summand |
| Operators.Neg | minitorch/operators.py:53-55 | the result is the additive inverse: result plus `x` is 0 |
| Operators.NegInvolutive | minitorch/operators.py:53-55 | `neg(neg(x)) == x`, and `x + neg(x) == 0` |
| Operators.Lt | minitorch/operators.py:58-60 | `lt(x, y)` holds exactly when `x` and `y` differ and `max(x, y)` is `y` |
| Operators.Eq | minitorch/operators.py:63-65 | `eq(x, y)` holds exactly when `lt` holds in neither direction |
| Operators.MaxAgreesWithLt | minitorch/operators.py:58-70 | `max(x, y)` is `x` exactly when `x` is not less than `y` |
| Operators.Max | minitorch/operators.py:68-70 | the result is one of the two arguments and at least both; on a tie it is `y` |
| Operators.IsClose | minitorch/operators.py:73-75 | true exactly when `x` lies strictly inside the interval `(y - 0.01, y + 0.01)` |
| Operators.IsCloseSymmetric | minitorch/operators.py:73-75 | `is_close` is symmetric, and exact equality implies closeness |
| Operators.IsCloseExamples | minitorch/operators.py:73-75 | `is_close(1.0, 1.0099)` holds and `is_close(1.0, 1.02)` does not |
| Operators.Relu | minitorch/operators.py:86-88 | the result is non-negative and at least `x`; it is `x` for `x >= 0` and 0 for `x <= 0` |
| Operators.LogBack | minitorch/operators.py:101-103 | for `x != 0` the result times `x` is the upstream gradient `d` |
| Operators.LogBackIsDerivative | minitorch/operators.py:101-108 | `log_back(x, d) == d * inv(x)`, which is d times the derivative of log |
| Operators.Inv | minitorch/operators.py:106-108 | for `x != 0` the result times `x` is 1 |
| Operators.InvInvolutive | minitorch/operators.py:106-108 | `inv(x)` is non-zero and `inv(inv(x)) == x` |
| Operators.InvBack | minitorch/operators.py:111-113 | for `x != 0` the result times `x*x` is `-d` |
| Operators.InvBackIsDerivative | minitorch/operators.py:106-113 | `inv_back(x, d) == -d * inv(x)^2`, which is d times the derivative of inv |
| Operators.ReluBack | minitorch/operators.py:116-118 | the result is `d` for `x > 0` and 0 for `x <= 0`, including `x == 0` |
| Operators.ReluBackIsSlope | minitorch/operators.py:116-118 | `relu(x) * d == relu_back(x, d) * x`, so `relu_back` is d times the slope of relu |
| Combinators.Map | minitorch/operators.py:137-141 | the result has the input's length, and element i is `fn(ls[i])` |
| Combinators.MapAppend | minitorch/operators.py:137-141 | map of `a + b` is map of `a` followed by map of `b`, so order is kept |
| Combinators.MapId | minitorch/operators.py:137-141 | mapping `id` returns the list unchanged |
| Combinators.MapCompose | minitorch/operators.py:137-141 | mapping `g` then `f` equals mapping their composition |
| Combinators.ZipWith | minitorch/operators.py:143-147 | the result is as long as the shorter list, and element i is `fn(ls1[i], ls2[i])` |
| Combinators.ZipWithTruncates | minitorch/operators.py:143-147 | elements of the longer list past the shorter one's length do not affect the result |
| Combinators.ZipWithAppend | minitorch/operators.py:143-147 | on equal-length lists, appending `x` and `y` appends `fn(x, y)` |
| Combinators.FoldLeftAppend | minitorch/operators.py:156-158 | folding `s + [x]` applies `fn` once more to the fold of `s` |
| Combinators.ReduceAppend | minitorch/operators.py:151-159 | for non-empty `ls`, `reduce(fn)(ls + [x]) == fn(reduce(fn)(ls), x)` |
| Combinators.Reduce | minitorch/operators.py:149-160 | the loop computes `ReduceSpec`: 0 for `[]`, `ls[0]` for a one-element list, and otherwise the left fold seeded with `ls[0]` |
| Combinators.NegList | minitorch/operators.py:162-164 | the result has the input's length, and element i is `-ls[i]` |
| Combinators.NegListInvolutive | minitorch/operators.py:162-164 | `negList(negList(ls)) == ls` |
| Combinators.AddLists | minitorch/operators.py:166-168 | the result is as long as the shorter list, and element i is `ls1[i] + ls2[i]` |
| Combinators.AddListsCommutes | minitorch/operators.py:166-168 | `addLists` is commutative, and adding `negList(ls)` to `ls` gives zeros |
| Combinators.FoldAddIsSum | minitorch/operators.py:170-172 | a left fold of `add` from `acc` is `acc` plus the sum of the list |
| Combinators.FoldMulIsProd | minitorch/operators.py:174-176 | a left fold of `mul` from `acc` is `acc` times the product of the list |
| Combinators.Sum | minitorch/operators.py:170-172 | `sum(ls)` is the mathematical sum of `ls`, and 0 for `[]` |
| Combinators.Prod | minitorch/operators.py:174-176 | `prod(ls)` is the mathematical product for non-empty `ls`; for `[]` it is 0, which differs from the empty product 1 |
| Combinators.Examples | minitorch/operators.py:162-176 | `sum [1,2,3] = 6`; `prod [2,3,4] = 24`; both are 0 on `[]`; `addLists [1,2,3] [4,5] = [5,7]`; `negList [1,-2,3] = [-1,2,-3]` |

## Left out

- `sigmoid`, `log` and `exp` (minitorch/operators.py:78-98) are not modelled. They call the transcendental `math.exp` and `math.log`, which have no counterpart over Dafny's reals.
- IEEE floating point is not modelled: rounding, NaN, signed zero and the binary value of `1e-2`. Scalars are exact reals, and the tolerance of `is_close` is exactly 0.01.
- `inv`, `inv_back` and `log_back` raise on division by zero. The model has no error type for this. They require `x != 0` instead.
- The combinators take total functions. So a partial operator such as `inv` cannot be passed to them, and the propagation of its error out of a combinator is not modelled.
- `Reduce` works over reals, not generically. Its empty-list result is the number 0.
- Python `Iterable` inputs, which may be lazy, are modelled as finite sequences.
- The dataset generators in `minitorch/datasets.py` are not part of this model. They are driven by random numbers and by `math.sin`/`math.cos`.
