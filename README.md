# A verified model of a small CPU path tracer

The renderer shoots rays from a camera into a scene. The scene is a tree of spheres, moving spheres, axis-aligned rectangles, boxes, lists, bounding-volume hierarchy (BVH) nodes, decorators (FlipNormals, Translate, RotateY) and constant-density media. Each ray is followed through up to 50 material bounces. Rows of the image are split into blocks for worker threads, and each pixel's averaged colour is written into a row-major byte buffer.

This project models the discrete core of that renderer and proves what it promises:

- the row partition of `parallelForEach`;
- the BVH construction, box and traversal;
- closest-hit over a list, the six-face box and the decorators;
- the AABB algebra and slab test;
- the sphere, rectangle and medium hit tests;
- material branching;
- the texture indexing (Fisher-Yates permutation, Perlin masks, image clamping);
- the recursive `color` integrator, the command-line parser and the pixel index layout.

How the model works:

- Geometry is exact `real` arithmetic. `Vector3` is a datatype of three reals.
- Transcendentals (`sqrt`, `log`, `sin`, `cos`, the sphere's UV map, vector length) are fields of an injected `Math` value. Only the facts the code relies on are stated about them: `sqrt` is non-negative, and a nonzero vector has a positive length.
- `drand48()` is an injected stream `nat -> Drand` of values in [0, 1), read at an explicit position. Each hit returns the position after its own draws.
- The `rand()` draws of `randomInUnitSphere` and `Dielectric::scatter` are one injected `Bounce` per recursion depth.
- The scene is never changed once built, so `hit` and `boundingBox` are functions over a recursive datatype `Hitable`. The source's out-parameter `rec` is an argument, and the answer is `Some(record)` on `true`. Fields a primitive never writes keep the caller's values.
- Uninitialised locals (`tempRec`, `leftRec`, `boxLeft`, `refracted` and so on) are fixed placeholder values, `Blank`, `Unset` and `UnsetVector`. This means an unwritten value is never confused with a written one.
- Where the source works by mutation, the model is imperative, with loop invariants and specification functions:
  - the Fisher-Yates loop over an `array`, and the permutation table;
  - the trilinear and noise loops;
  - `ImageTexture::value`'s clamps;
  - `randomInUnitSphere`'s rejection loop;
  - the AABB slab loop;
  - `RotateY`'s corner loop;
  - `HitableList`'s two loops;
  - the in-place `BVHNode` constructor over an `array`;
  - the medium's clamps;
  - the block loop of `parallelForEach`;
  - the argument loop;
  - the sampling loop and the per-row writes into the image `array`.

Defects in the source are modelled as written. In each case a lemma shows the consequence:

- The BVH comparators read `a` twice. `CompareIgnoresSecond` shows that the sort order is unspecified, so `qsort` is an injected `Sorter` that returns a permutation.
- `HitableList::boundingBox` asks `list[0]` on every iteration. `ListBoxIsFirst` and `ListBoxMissesSecondChild` show that the list's box is its first child's.
- The XZ and YZ rectangles' boxes use the wrong axes. See `XZBoxMissesItsRect` and `YZBoxMissesItsRect`.
- Only the sphere's nearer root gets its UV from the unit normal. The moving sphere never writes u and v.
- A `rand()` draw of exactly `RAND_MAX` gives 1. Where refraction is impossible, that draw makes `Dielectric` take the never-written `refracted` vector (`DielectricScattered`).

When a child has no bounding box, `BVHNode`'s constructor only prints a message and goes on. It stores the box around whatever `boxLeft` and `boxRight` hold at that point (`BvhProperties.NodeBoxEncloses`).

## Model

| member | source | states |
|---|---|---|
| Rays.NewRay | ray.h:9-12 | The constructor stores origin, direction and time, and the accessors give them back unchanged. |
| Rays.DefaultTimeIsZero | ray.h:9 | A ray built without a time has time 0. |
| Rays.PointAtZeroIsOrigin | ray.h:13 | pointAtParameter(0) is the origin. |
| Rays.PointAtAffine | ray.h:13 | pointAtParameter is affine: p(t + s) = p(t) + s * direction. |
| Draws.Trunc | texture.h:52 | A float-to-int conversion truncates toward zero: the floor for non-negative values, the ceiling for negative ones, within 1 of the value. |
| Draws.ScaledDrawInRange | texture.h:52 | int(drand48() * (i + 1)) is the floor of the product and lies in [0, i]. |
| Aabbs.FFMin | aabb.h:4 | ffmin returns one of its arguments, and it is at most both. |
| Aabbs.FFMax | aabb.h:5 | ffmax returns one of its arguments, and it is at least both. |
| Aabbs.SurroundingBox | aabb.h:31-41 | The result contains both boxes and is contained in every box that contains both, so it is the least enclosing box. It is valid when both inputs are. |
| Aabbs.SurroundingCommutative | aabb.h:31-41 | surrounding_box(a, b) == surrounding_box(b, a). |
| Aabbs.SurroundingAssociative | aabb.h:31-41 | surrounding_box is associative. |
| Aabbs.SurroundingIdempotent | aabb.h:31-41 | surrounding_box(b, b) == b. |
| Aabbs.Slab | aabb.h:16-22 | One axis of the slab test. A surviving window (tmin', tmax') satisfies tmin <= tmin' < tmax' <= tmax: tmin never decreases, tmax never increases, and the test fails when tmax <= tmin. A zero direction component follows IEEE division. |
| Aabbs.SlabsFrom | aabb.h:15-24 | The loop over the axes keeps the window inside the one it started from. After any axis has narrowed it, a surviving window is nonempty. |
| Aabbs.Hit | aabb.h:14-25 | The method with the loop over three axes returns true exactly when the slab recursion SlabsFrom leaves a window. |
| Aabbs.SlabSound | aabb.h:16-21 | A parameter inside the window one axis leaves puts the ray inside that axis's slab. |
| Aabbs.SlabComplete | aabb.h:16-21 | A parameter at which the ray is strictly inside the slab, and inside (tmin, tmax), stays inside the window that axis leaves. |
| Aabbs.SlabsSound | aabb.h:15-24 | Over the remaining axes, a parameter inside the final window puts the ray inside each slab (induction over the axes). |
| Aabbs.SlabsComplete | aabb.h:15-24 | A parameter at which the ray is strictly inside every remaining slab survives the loop (induction over the axes). |
| Aabbs.HitSound | aabb.h:14-25 | When the test succeeds on a valid box, the ray is inside the box at every parameter strictly inside the final window, and that window lies in (tmin, tmax). |
| Aabbs.HitComplete | aabb.h:14-25 | The test never prunes a ray that is strictly inside the box at some parameter in (tmin, tmax), whatever its direction. |
| Textures.SwapTarget | texture.h:52 | The index each step of permute draws lies in [0, i]. |
| Textures.SwapPermutes | texture.h:53-55 | Exchanging two cells keeps the multiset of entries. |
| Textures.ShufflePermutes | texture.h:50-57 | The Fisher-Yates loop keeps the length and the multiset of the table: it is a permutation (induction over i). |
| Textures.Permute | texture.h:50-57 | The in-place loop leaves the array equal to the shuffle of its old contents, a permutation of them. It consumes one draw per index from n - 1 down to 1. |
| Textures.SwapWithDrawn | texture.h:52-55 | One iteration swaps p[i] with the drawn target, which advances the shuffle by one step. |
| Textures.SwapCells | texture.h:53-55 | The three assignments through tmp exchange p[i] and p[j], and nothing else. |
| Textures.IotaAt | texture.h:62-64 | The initial table holds i at index i. |
| Textures.IotaCounts | texture.h:62-64 | The initial table holds each of 0..n-1 exactly once, and nothing else. |
| Textures.PermTableIsPermutation | texture.h:60-67 | perlinGeneratePerm's table has 256 entries and holds each of 0..255 exactly once, whatever the draws. |
| Textures.PerlinGeneratePerm | texture.h:60-67 | The method fills 0..255 and permutes the table in place. It returns the table PermTable describes, after 255 draws. |
| Textures.TermOfCorner | texture.h:9-11 | The term the loops add for c[i][j][k] is the product of the three corner weights and c[i][j][k]. |
| Textures.TrilinearInterp | texture.h:4-14 | The three nested loops accumulate the eight-term sum Trilinear. |
| Textures.TrilinearAtCorner | texture.h:4-14 | At a corner (u, v, w) of the unit cube, trilinearInterp returns c[u][v][w]. |
| Textures.TermSumAtCorner | texture.h:6-11 | At a corner, the first n terms sum to that corner's value once its index is below n, and to 0 before (induction over n). |
| Textures.GeneratedTablesWellFormed | texture.h:133-136 | Tables built by perlinGeneratePerm have 256 entries in [0, 255], as noise's indexing needs. |
| Textures.Mask | texture.h:33 | x & 255 lies in [0, 255] and is congruent to x modulo 256. |
| Textures.Hash | texture.h:33 | The XOR of three table entries lies in [0, 255], so the ranfloat index is in bounds. |
| Textures.Frac | texture.h:20-22 | p - floor(p) lies in [0, 1). |
| Textures.Corners | texture.h:29-33 | Each of the eight corner values is an entry of ranfloat. |
| Textures.Noise | texture.h:19-35 | The three nested loops fill c with the corner values of the lattice cell read through permX. The result is the interpolation NoiseAt describes. |
| Textures.NoiseIgnoresPermYZ | texture.h:33 | Only permX is read: changing permY and permZ never changes the noise. |
| Textures.Channel | texture.h:127-129 | A byte divided by 255 lies in [0, 1]. |
| Textures.Clamp | texture.h:123-126 | The two clamping steps give a value in [0, hi]: unchanged when already inside, 0 below, hi above. |
| Textures.TexelInBounds | texture.h:127-129 | For i < nx and j < ny, the three reads at 3i + 3nx*j + {0, 1, 2} stay inside a buffer of 3 * nx * ny bytes. |
| Textures.Texel | texture.h:121-126 | The column and row read lie in [0, nx) and [0, ny). Each equals the truncated coordinate when that coordinate is already in range (clamping, not wrapping). |
| Textures.ImageColor | texture.h:120-131 | Every channel of an image texture's value lies in [0, 1]. |
| Textures.ImageValue | texture.h:120-131 | The method clamps i and j step by step and returns the colour ImageColor describes. |
| Textures.ConstantIgnoresInputs | texture.h:78-80 | ConstantTexture returns its colour whatever (u, v, p). |
| Textures.CheckerSelects | texture.h:88-94 | The checker returns odd's value when the sine product is negative, and even's otherwise. |
| Textures.CheckerOfSame | texture.h:88-94 | A checker of a texture with itself is that texture. |
| Materials.RandomInUnitSphere | material.h:13-19 | When some attempt is accepted, the do-while loop returns the first accepted candidate. The result has squared length below 1, and no earlier attempt was accepted. |
| Materials.ReflectNegatesNormalPart | material.h:21-23 | For a unit normal n, reflect(v, n) · n == -(v · n). |
| Materials.ReflectInvolution | material.h:21-23 | For a unit normal, reflecting twice gives back v. |
| Materials.Refract | material.h:25-35 | refract succeeds exactly when 1 - eta^2 (1 - dt^2) > 0. A failure writes nothing. |
| Materials.RefractedVector | material.h:26-31 | For a unit normal, the vector refract writes has normal component -sqrt(discriminant), and its tangential part is eta times that of the unit direction (Snell's law). |
| Materials.NewMetal | material.h:64 | fuzz is f when f < 1 and 1 otherwise. It is never above 1, and there is no lower clamp. |
| Materials.Emitted | material.h:46-119 | Every material but DiffuseLight emits black. DiffuseLight emits its texture's value. |
| Materials.LambertianScatter | material.h:52-57 | A Lambertian scatters from rec.p towards normal + a random point, keeping the ray's time, with the albedo's value as attenuation. |
| Materials.MetalScattered | material.h:66-67 | The metal's scattered ray starts at rec.p, with time 0, along reflect(unitVector(direction), normal) + fuzz * the random point in the unit sphere. |
| Materials.MetalMirror | material.h:66-67 | With fuzz 0 the metal is a perfect mirror: the scattered direction is the reflection of the unit incoming direction. |
| Materials.DielectricSetup | material.h:87-95 | A ray arriving along the normal uses the flipped normal and eta = refIDX; otherwise it uses the normal and eta = 1/refIDX. The cosine is refIDX (d · n) / \|d\| in the first case and -(d · n) / \|d\| in the second. |
| Materials.DielectricScattered | material.h:79-108 | The dielectric's scattered ray starts at rec.p, with time 0. Where refraction is possible, a draw below schlick(cosine, refIDX) reflects and any other draw refracts. Where it is impossible, every draw below 1 reflects, and a draw of exactly 1 takes the never-written `refracted` vector. |
| Materials.Scatter | material.h:45-130 | DiffuseLight never scatters. Lambertian, Dielectric and Isotropic always do. Every scattered ray starts at rec.p. Metal scatters exactly when scattered · normal > 0, with attenuation albedo. Metal's scattered ray is MetalScattered's. Dielectric attenuates by (1, 1, 1), and its ray is DielectricScattered's reflect-or-refract choice. Lambertian and Isotropic attenuate by their texture's value. Lambertian's answer is LambertianScatter's (along normal + the random point, keeping the ray's time). Isotropic scatters along the random point with time 0, so a medium drops the ray's time. |
| Spheres.RootInWindow | sphere.h:30-50 | The test reports a root only when the discriminant is positive and the root lies in the open window (tMin, tMax). The nearer root wins when it is in the window, and the farther root is taken only when the nearer is not. With a positive discriminant there is a hit exactly when one of the two roots is in the window. |
| Spheres.SphereHit | sphere.h:25-52 | A hit exactly when a root lies in (tMin, tMax), at that root. The point is on the ray, the normal is (p - center) / radius and the material is the sphere's. The nearer root takes (u, v) from the unit normal, the farther root from the point p itself. |
| Spheres.SphereBox | sphere.h:54-57 | The box runs from center - (r, r, r) to center + (r, r, r). |
| Spheres.SphereInBox | sphere.h:54-57 | For r >= 0, every point within distance r of the center lies in the sphere's box. |
| Spheres.MovingCenterAtTime0 | sphere.h:72-74 | center(time0) == center0. |
| Spheres.MovingCenterAtTime1 | sphere.h:72-74 | center(time1) == center1. |
| Spheres.MovingSphereHit | sphere.h:76-101 | A moving sphere is hit exactly when the fixed sphere at center(r.time) is, at the same t. The normal is measured from that center, and u and v are never written. |
| Spheres.MovingSphereBox | sphere.h:103-109 | The box contains the boxes at center(t0) and center(t1), and it is the smallest such box. |
| Spheres.MovingBoxEnclosesEnds | sphere.h:103-109 | Over (time0, time1), the box encloses the sphere at center0 and at center1. |
| Rectangles.PlaneNormal | rectangle.h:65 | Each rectangle's normal is the unit vector along the axis its plane fixes. |
| Rectangles.CoordsOfPoint | rectangle.h:54-55 | The in-plane coordinates the source computes as o + t d are those of pointAtParameter(t). |
| Rectangles.PointOnPlane | rectangle.h:51 | The point at t = (k - o) / d lies on the plane at k. |
| Rectangles.RectHit | rectangle.h:50-101 | A hit exactly when the divisor is nonzero, t lies in the closed window [t0, t1] and the point lies in the closed rectangle. The point is on the ray and on the plane, the normal is the plane's, and u and v lie in [0, 1]. |
| Rectangles.RectBox | rectangle.h:14-45 | Every rectangle's box is k -/+ 0.0001 thick in z, whatever its plane. |
| Rectangles.XYHitInBox | rectangle.h:14-17 | Every point where an XYRect is hit lies in its box. |
| Rectangles.XZBoxMissesItsRect | rectangle.h:28-31 | An XZRect's box can miss a point of the rectangle: the box is set up as if for the z = k plane. |
| Rectangles.YZBoxMissesItsRect | rectangle.h:42-45 | A YZRect's box, (y0, y0, k - 0.0001) to (z1, z1, k + 0.0001), can miss a point of the rectangle. |
| Media.MediumWindow | constantMedium.h:27-34 | After the clamps, entry is max(rec1.t, tMin, 0) and exit is min(rec2.t, tMax). There is no hit exactly when max(rec1.t, tMin) >= min(rec2.t, tMax). For tMin >= 0 a surviving window is non-empty. |
| Media.FlightDistance | constantMedium.h:36 | -(1/density) log(drand48()) is non-negative for a positive density. |
| Media.FreeFlight | constantMedium.h:35-39 | There is a hit exactly when hitDistance < (exit - entry) * \|d\|, at entry + hitDistance / \|d\|, which lies in [entry, exit). |
| Media.ClampAndFly | constantMedium.h:27-39 | The step-by-step clamps draw exactly when a window survives. The result is the free flight through that window, and it lies in [max(tMin, 0), tMax). |
| Rotations.RotationRoundTrip | hitable.h:214-226 | With sin^2 + cos^2 = 1, the world-to-object turn of RotateY::hit and the object-to-world turn are inverse to each other. |
| Rotations.RotationKeepsLength | hitable.h:214-226 | Both turns keep squared lengths. |
| Rotations.RotationLinear | hitable.h:223-224 | The object-to-world turn is linear: it maps a + t b to turn(a) + t turn(b). |
| Rotations.RotatedPoint | hitable.h:211-229 | Turning the ray into object space and turning its point at t back gives the original ray's point at t. |
| Rotations.TurnByZero | hitable.h:214-226 | With sin 0 and cos 1 both turns are the identity. |
| Rotations.CornerSelects | hitable.h:193-195 | i*max + (1-i)*min selects min for 0 and max for 1 on each axis. |
| Rotations.CornerIndexOfLoop | hitable.h:190-192 | The three nested loops visit the eight corners in the order 4i + 2j + k. |
| Rotations.TurnBox | hitable.h:188-208 | The nested loops leave the box the fold over the eight turned corners describes. |
| Rotations.WidenInPlace | hitable.h:199-204 | The per-axis loop raises max and lowers min to take in the tester. |
| Rotations.TestersWithin | hitable.h:188-208 | After n corners, the box holds each of the first n turned corners. |
| Rotations.RotatedBoxValid | hitable.h:188-208 | The rotated box has min <= max on every axis. |
| Rotations.UpperEnd | hitable.h:196-197 | For k * x over x in {x0, x1}, some end reaches the maximum. |
| Rotations.LowerEnd | hitable.h:196-197 | For k * x over x in {x0, x1}, some end reaches the minimum. |
| Rotations.RotatedBoxSound | hitable.h:183-209 | Every point of the original box, once turned, lies in the rotated box. |
| Decorators.NewRotateY | hitable.h:183-209 | The constructor stores sin and cos of (pi/180) * angle and whether the wrapped object has a box over (0, 1). The stored box is the rotated one, has min <= max, and is what boundingBox answers. |
| Hitables.Nearer | hitable.h:105-118 | No hit only when neither child hits. Otherwise the answer is one of the children's records and it is no farther than either; of two hits the left is taken exactly when it is strictly nearer. |
| Hitables.Reentry | constantMedium.h:25 | The exit is looked for strictly beyond the entry. |
| Hitables.MediumHit | constantMedium.h:27-46 | A medium hit lies in [max(tMin, 0), tMax), on the ray, with normal (1, 0, 0), the phase function as material and the caller's u and v. One draw is consumed exactly when the window survives. |
| Hitables.FlightHit | constantMedium.h:35-46 | The free-flight hit lies in [entry, exit), on the ray, with normal (1, 0, 0) and the phase function, after exactly one draw. |
| HitProperties.HitAdvances | hitable.h:20 | No hit moves the drand48 stream backwards. |
| HitProperties.ListAdvances | hitableList.h:20-26 | The loop over the children never moves the stream backwards. |
| HitProperties.HitWindow | hitable.h:20 | Every reported hit lies in [tMin, tMax] and carries a well-formed material. A ray with a zero direction hits nothing. |
| HitProperties.ListWindow | hitableList.h:20-26 | closestSoFar never grows, hitAnything once set stays set, and the record kept lies in [tMin, closestSoFar]. |
| HitProperties.FlipTwice | hitable.h:123-139 | Flipping the normals twice gives back the wrapped object's hits and box. |
| HitProperties.TranslateRoundTrip | hitable.h:150-167 | Translating by v and then by -v gives back the object's hits and box. |
| HitProperties.RotateByZero | hitable.h:211-233 | A RotateY with sin 0 and cos 1 answers the wrapped object's hits. |
| HitProperties.HitOnRay | hitable.h:20 | In a scene whose rotations are rigid, every reported point is the incoming ray's point at the reported t. |
| HitProperties.TranslateOnRay | hitable.h:150-158 | Translate::hit moves the point back by the offset, so it lands on the original ray. |
| HitProperties.RotateOnRay | hitable.h:211-233 | RotateY::hit turns the point back, so it lands on the original ray. |
| HitProperties.ListOnRay | hitableList.h:16-28 | The list's record is always a point on the ray. |
| HitProperties.BoxQueryIndependent | hitable.h:21 | boundingBox's answer does not depend on what the out-parameter held before. |
| ListScans.ScanAny | hitableList.h:18-27 | hitAnything is true exactly when some child answered a hit. |
| ListScans.ScanLast | hitableList.h:21-25 | Once something is hit, rec is the last answer that was a hit, and every later answer is a miss. |
| ListScans.ScanLeast | hitableList.h:19-25 | When every child answers inside the window it was asked for, closestSoFar is at most tMax, the record lies in [tMin, tMax], and no answer is nearer than the record. |
| ListScans.ScanOfPrefix | hitableList.h:20-26 | One more iteration extends the scan by one answer. |
| HitableLists.FoldFromPrefix | hitableList.h:20-26 | Finishing the loop from the state after i children gives the same result as running it whole. |
| HitableLists.ListHitIsLastState | hitableList.h:16-28 | hit answers the state after the last child. |
| HitableLists.HitLoop | hitableList.h:16-28 | The loop returns true exactly when the scene's hit does. It then writes that record, and otherwise leaves rec as it was. |
| HitableLists.StateIsScan | hitableList.h:20-26 | The loop state after i children is the bookkeeping of their answers. |
| HitableLists.AnswersHonoured | hitableList.h:21 | Every child answers inside [tMin, closestSoFar]. |
| HitableLists.AskedInWindow | hitableList.h:21 | Child i's hit lies in [tMin, closestSoFar] at the time it is asked. |
| HitableLists.NextHonoured | hitableList.h:21-23 | One more answer inside its window keeps all answers inside theirs. |
| HitableLists.ListHitClosest | hitableList.h:16-28 | false exactly when no child hits. Otherwise the record is the last hit, it lies in [tMin, tMax], and no child's answer is nearer. |
| HitableLists.ClosestNonIncreasing | hitableList.h:19-23 | The first child is asked up to tMax, and each later child up to no more than the one before. |
| HitableLists.BoundingBoxLoop | hitableList.h:30-47 | The method with its loop answers what the scene's boundingBox does. |
| HitableLists.LoopKeepsFirst | hitableList.h:40-45 | Merging list[0]'s box into itself leaves it unchanged, at every iteration. |
| HitableLists.ListBoxIsFirst | hitableList.h:30-47 | A list has a box exactly when it is not empty and list[0] has one, and that box is list[0]'s. |
| HitableLists.ListBoxMissesSecondChild | hitableList.h:40-45 | The box of two unit spheres at 0 and at (10, 0, 0) does not contain the second sphere's box. |
| Boxes.NewBox | box.h:20-31 | The constructor stores p0 and p1 and a list of six faces in the written order. Each face is an axis rectangle at p1 or p0, and the odd faces are flipped. |
| Boxes.BoxWellFormed | box.h:20-31 | A box's divisors are all nonzero exactly when p0 and p1 differ on every axis and the material is well formed. |
| Boxes.BoxBoundingBox | box.h:12-15 | boundingBox always succeeds with (pmin, pmax). |
| Boxes.BoxHitIsFacesHit | box.h:33-35 | Box::hit is the hit of the list of its faces. |
| BvhPlans.Axis | hitable.h:77 | int(3 * drand48()) is 0, 1 or 2. |
| BvhPlans.PlanOf | hitable.h:76-98 | A construction consumes at least one draw and leaves a slice of the same length. |
| BvhPlans.PlanLeaves | hitable.h:76-98 | Every element of the slice sits under the node exactly as often as it occurs, and the slice is left a permutation of itself. |
| BvhPlans.PlanDraws | hitable.h:77-92 | Each node draws once, so a construction consumes one draw per node. |
| BvhPlans.PlanOfOne | hitable.h:85-86 | A slice of one element gives a node with that element on both sides. |
| BvhPlans.Splice | hitable.h:78-92 | Replacing n cells from lo keeps the length and puts the new values there. |
| BvhPlans.SpliceTwice | hitable.h:91-92 | Rearranging the lower half and then the upper half rearranges the slice. |
| Bvh.Compare | hitable.h:24-58 | Each comparator answers -1 or 1. |
| Bvh.CompareIgnoresSecond | hitable.h:24-58 | Both operands are read from `a`, so the answer never depends on `b`, and it is 1 whenever `a` has a box. |
| Bvh.Node | hitable.h:85-97 | The node of a shape is a BVHNode and well formed. |
| Bvh.Build | hitable.h:76-98 | The constructor builds a well-formed BVHNode. |
| Bvh.NewBVHNode | hitable.h:76-98 | The in-place constructor builds the node Build describes, consumes the draws the plan says, and leaves the slice as the plan arranges it. The rest of the array is untouched. |
| Bvh.BuildStep | hitable.h:78-97 | One level of the construction: one or two children, or the nodes over the two halves of the sorted slice. |
| Bvh.SortedWellFormed | hitable.h:78-83 | A rearranged slice keeps the well-formedness of each element. |
| Bvh.SortInPlace | hitable.h:78-83 | qsort's effect: the slice from lo holds the sorted order. |
| Bvh.NewChildren | hitable.h:91-92 | The two recursive constructions build over the lower half and then over the rest, the second from where the first's draws stopped. The array then holds the two halves' arrangements over the slice, and nothing else changes. |
| BvhProperties.NodeBoxEncloses | hitable.h:94-97 | The stored box contains the left child's box, and the right's when both have one. |
| BvhProperties.BoxesEnclose | hitable.h:76-98 | When every element has a box, each node's box encloses the box of every element under it. |
| BvhProperties.BuildEncloses | hitable.h:76-98 | The root's box encloses the box of every element of the slice. |
| BvhProperties.NodeBoundingBox | hitable.h:71-74 | BVHNode::boundingBox always answers the stored box. |
| BvhProperties.HitMissesBox | hitable.h:100-101 | A ray missing the node's box has no hit and consumes no draw. |
| BvhProperties.HitNearestChild | hitable.h:100-121 | Both children are asked over the same window, left first. There is a hit exactly when one of them hits, and no child hit is nearer. Of two equally near hits the right one wins. |
| Parallel.MaxThreads | parallel.h:26-27 | ceil(length / 25): the fewest threads that give none more than 25 rows. |
| Parallel.NumThreads | parallel.h:29-31 | At least 1 for a non-empty range, and at most maxThreads and the hardware count, which counts as 2 when it is reported as 0. |
| Parallel.BlockSize | parallel.h:32 | Between 1 and length, and numThreads blocks of that size never pass the end. |
| Parallel.Range | parallel.h:22-24 | The integers first to last - 1 in order. |
| Parallel.Blocks | parallel.h:31-53 | No blocks for an empty range, otherwise numThreads blocks. |
| Parallel.BlocksPartition | parallel.h:38-53 | The blocks tile [first, last): each ends where the next starts, all but the last have blockSize rows, and the last has at least that many. |
| Parallel.BlockAt | parallel.h:38-53 | Block i starts at first + i * blockSize. |
| Parallel.ExactlyOneBlock | parallel.h:38-53 | Every row lies in exactly one block. |
| Parallel.ParallelForEach | parallel.h:21-58 | f is called with each of first to last - 1 exactly once, in increasing order. |
| Parallel.EmptyRange | parallel.h:22-24 | An empty range forms no block and never calls f. |
| Integrator.Color | main.cpp:31-45 | A ray that hits nothing in (0.001, FLT_MAX) is black, and a trace never moves the stream backwards. |
| Integrator.ColorAtMaxDepth | main.cpp:35-42 | From depth 50 on, the colour is the emission of what is hit. |
| Integrator.ColorOfLight | main.cpp:33-42 | A hit on a DiffuseLight gives its emitted texture value, at any depth. |
| Integrator.ColorOfSurface | main.cpp:33-42 | A hit on any other material gives the attenuated colour of the scattered ray, or black when it is absorbed or the depth is exhausted. |
| Integrator.DarkSceneIsBlack | main.cpp:31-45 | A scene in which no ray ever hits a light renders black at every depth. |
| CommandLine.Prefix | main.cpp:157-164 | "--fileName=" and "--nSamples=" are 11 characters long, "--xResolution=" and "--yResolution=" 14. |
| CommandLine.SubstrPrefix | main.cpp:157-164 | substr(0, \|p\|) == p exactly when the argument starts with p, and substr(\|p\|) is the rest. |
| CommandLine.Dispatch | main.cpp:157-168 | An argument chosen for a key starts with that key's prefix. |
| CommandLine.DispatchIffPrefix | main.cpp:157-168 | An argument is dispatched to a key exactly when it starts with that key's prefix. |
| CommandLine.ReadCommandLine | main.cpp:155-169 | The method with its loop answers what the fold over argv[1..] does. |
| CommandLine.ReadArgument | main.cpp:157-168 | The if-chain on one argument answers what Apply does. |
| CommandLine.ReadOneMore | main.cpp:155-169 | The loop may stop at the first argument that fails, because nothing after it changes the outcome. |
| CommandLine.ParseStep | main.cpp:155-169 | One more argument applies to the options parsed so far, unless parsing has stopped. |
| CommandLine.ParseAppend | main.cpp:155-169 | Parsing a + b is parsing b from where a left off. |
| CommandLine.NoArguments | main.cpp:24-29 | With no arguments the options are ("image.jpg", 1, 600, 300). |
| CommandLine.LastFor | main.cpp:155-169 | The last argument for a key is an argument, and it dispatches to that key. |
| CommandLine.ApplyFrame | main.cpp:157-164 | An argument for another key leaves this key's setting alone. |
| CommandLine.ApplySets | main.cpp:157-164 | An argument for a key sets that key to its value. |
| CommandLine.LastOccurrenceWins | main.cpp:155-169 | When parsing succeeds, each setting is the value of the last argument for its key, or its previous value when there is none. |
| CommandLine.LastFileNameWins | main.cpp:157-158 | A trailing --fileName=v sets fileName to v and nothing else. |
| CommandLine.FirstUnknownStops | main.cpp:165-168 | The first unrecognised argument stops parsing with that argument, whatever follows. |
| CommandLine.SamplesUnchecked | main.cpp:159-160 | --nSamples takes any integer stoi returns, zero and negatives included. |
| Images.DivModUnique | main.cpp:208-210 | The quotient and remainder of j * x + i for 0 <= i < x are j and i. |
| Images.PixelIndexRoundTrip | main.cpp:208-210 | The index (j*nx + i)*3 + c of a pixel in the image lies in [0, nx*ny*3), and decoding it gives back (i, j, c). |
| Images.PixelIndexInjective | main.cpp:208-210 | Distinct pixels and channels are written to distinct cells. |
| Images.EveryCellIsAPixel | main.cpp:193-210 | Every cell of the image is the index of some pixel of the image. |
| Images.Average | main.cpp:198-205 | Dividing the sum by nSamples is undefined for 0 samples; a negative count sums nothing. |
| Images.AverageOfConstant | main.cpp:198-205 | A pixel whose every sample is v averages to v. |
| Images.SumOfConstant | main.cpp:198-204 | n samples of v sum to n * v. |
| Images.SumSamples | main.cpp:198-204 | The sampling loop accumulates the sum SampleSum describes. |
| Images.WritePixel | main.cpp:208-210 | Writing one pixel sets its three cells and leaves every other cell alone. |
| Images.WriteRow | main.cpp:196-211 | The work for one row writes exactly the cells of that row, each to its tone-mapped average. |
| Images.Render | main.cpp:193-212 | Every cell of the new image holds the tone-mapped average of its pixel's channel. |
| Images.PixelCell | main.cpp:208-210 | Cell base + c of pixel (i, j) decodes to (i, j, c). |
| HitProperties.FlipChangesOnlyNormal | hitable.h:126-136 | FlipNormals answers the wrapped hit with only the normal negated, and the wrapped box unchanged. |
| HitProperties.TranslateShifts | hitable.h:150-167 | Translate asks about the ray moved by -offset. It moves the point by +offset, keeps t, the normal, the material and (u, v), and moves the box by +offset. |
| HitProperties.MediumBoxIsBoundary | constantMedium.h:10-12 | ConstantMedium's boundingBox is the boundary's answer, unchanged. |
| Hitables.Hit | hitable.h:20 | The virtual hit, dispatched on the kind of object. It answers a hit flag, the record (the incoming one on a miss) and the stream position after its draws; HitAdvances, HitWindow and HitOnRay state its properties. |
| Hitables.BoundingBox | hitable.h:21 | The virtual boundingBox, dispatched on the kind of object. It answers whether there is a box and the box (the incoming one when there is none); BoxQueryIndependent and ListBoxIsFirst state its properties. |
| Hitables.ListHit | hitableList.h:16-28 | HitableList::hit: the loop over the children from hitAnything = false and closestSoFar = tMax. ListHitClosest states what it answers. |
| Hitables.BVHHit | hitable.h:100-121 | BVHNode::hit: a miss without draws when the slab test fails; otherwise left is asked, then right from where left's draws stopped, and Nearer picks the answer. HitNearestChild states it. |
| Hitables.FlipHit | hitable.h:126-133 | FlipNormals::hit: the wrapped hit with its normal negated. FlipChangesOnlyNormal and FlipTwice state it. |
| Hitables.TranslateHit | hitable.h:150-158 | Translate::hit: the wrapped object is asked about the ray moved by -offset, and the point is moved by +offset. TranslateShifts and TranslateOnRay state it. |
| Hitables.RotateHit | hitable.h:211-233 | RotateY::hit: the ray is turned into object space, and the point and the normal are turned back. RotateOnRay and RotateByZero state it. |
| Hitables.MediumOutcome | constantMedium.h:19-49 | ConstantMedium::hit: the dead draw first, the boundary asked over the whole line and again beyond rec1.t + 0.0001, then MediumHit. Media.ClampAndFly and MediumHit state it. |
| Hitables.ListBoxLoop | hitableList.h:40-47 | The loop of HitableList::boundingBox, which asks list[0] on every iteration. ListBoxIsFirst and LoopKeepsFirst state what it answers. |
| Materials.Reflect | material.h:21-23 | v - 2 (v · n) n. ReflectNegatesNormalPart and ReflectInvolution state its properties. |
| Materials.RefractDiscriminant | material.h:26-28 | 1 - eta^2 (1 - dt^2), with dt the cosine between unitVector(v) and n. Refract states that refraction succeeds exactly when it is positive. |
| Materials.Schlick | material.h:37-41 | r0 + (1 - r0) (1 - cosine)^5, with r0 the square of (1 - refIdx) / (1 + refIdx). DielectricScattered's contract uses it as the reflection probability when refraction is possible. |
| Spheres.MovingCenter | sphere.h:72-74 | Linear interpolation from center0 at time0 to center1 at time1. MovingCenterAtTime0 and MovingCenterAtTime1 state its ends. |
| Rays.PointAtParameter | ray.h:13 | origin + t * direction. PointAtZeroIsOrigin and PointAtAffine state its properties. |
| Rotations.ToObject | hitable.h:214-217 | The world-to-object turn of RotateY::hit: (c x - s z, y, s x + c z). RotationRoundTrip states that ToWorld undoes it. |
| Rotations.ToWorld | hitable.h:223-226 | The object-to-world turn: (c x + s z, y, -s x + c z). RotationRoundTrip, RotationKeepsLength and RotationLinear state its properties. |
| Rotations.RotatedBox | hitable.h:188-208 | The box over the eight turned corners of the wrapped box. RotatedBoxValid and RotatedBoxSound state its properties, and TurnBox ties the loops to it. |
| Textures.Value | texture.h:71-131 | The virtual value, by kind of texture: the constant colour, the checker's choice, (1, 1, 1) times the noise at scale * p, or the clamped image texel. CheckerSelects, ConstantIgnoresInputs and ImageColor state its properties. |
| Textures.NoiseAt | texture.h:19-35 | Perlin::noise: the trilinear interpolation of the eight lattice corners, weighted by the smoothed fractions. Noise ties the loops to it, and NoiseIgnoresPermYZ states that only permX is read. |
| Textures.ShuffleFrom | texture.h:50-57 | The Fisher-Yates loop from index i down to 1, one draw per step. ShufflePermutes states that it is a permutation. |
| CommandLine.Apply | main.cpp:157-168 | One argument: --fileName= sets fileName; the three integer keys set their field to stoi of the rest, or stop on a non-number; anything else stops as unknown. ApplySets and ApplyFrame state its effect. |
| CommandLine.ParseArgs | main.cpp:155-169 | The loop over the arguments, stopping at the first one that ends main. ParseAppend, LastOccurrenceWins and FirstUnknownStops state its properties. |
| CommandLine.CommandLine | main.cpp:153-169 | What main reads: the defaults, then the arguments from argv[1] on. NoArguments and ReadCommandLine state it. |
| Images.SampleSum | main.cpp:197-204 | col summed over the first n samples of the pixel. SumOfConstant and SumSamples state it. |
| Images.Cell | main.cpp:208-210 | What a cell of the image holds: the tone-mapped average of the channel of its pixel. Render states that every cell holds it. |
| Rectangles.PlaneT | rectangle.h:51 | (k - o) / d along the axis the plane fixes. PointOnPlane states that the point there lies on the plane. |
| Bvh.NewRightChild | hitable.h:92 | The second recursive construction builds, from where the first's draws stopped, the node over the upper half, and leaves the array holding both halves' arrangements in place. |
| Bvh.HalvesWellFormed | hitable.h:91-92 | Both halves of a slice of well-formed objects are well formed. |
| BvhPlans.LowerSlice | hitable.h:91 | The first n / 2 cells from lo are the lower half of the slice. |
| BvhPlans.UpperInPlace | hitable.h:92 | Rearranging the lower half leaves the upper half of the slice where it was. |
| BvhPlans.SpliceHalves | hitable.h:91-92 | Writing the lower half's arrangement and then the upper half's writes their concatenation over the slice. |
| HitableLists.AnswersPrefix | hitableList.h:20-26 | The answers of the first i children extend those of the first k, and answer k is child k's. |
| HitableLists.AnswersSnoc | hitableList.h:20-26 | One more iteration appends child i - 1's answer to the answers so far. |

## Left out

- Threads, `std::packaged_task`, futures and `JoinThreads` (parallel.h:8-19, 34-57). The blocks of `parallelForEach` run one after another, and the model proves the partition only. The row writes are shown disjoint by `Images.WriteRow`.
- The camera (camera.h), the scene builders `randomScene`, `cornellBox` and `final`, `stbi_load`, image output and console messages: these are I/O, floating-point lens geometry or scene assembly.
- shape.h: a stale wrapper over types that no other file defines. It is not part of this model.
- Gamma `sqrt` and the 8-bit conversions of main.cpp:206-210 (`char(255.99 * c)` for channel 0, `int(255.99 * c)` for channels 1 and 2, each stored into a `char` cell) are one injected `tone: real -> int`. `color` itself is an injected `radiance` in `Images`. The camera ray and the `randomFloat` jitter of each sample are not modelled.
- Transcendentals and IEEE behaviour:
  - `sqrt`, `log`, `pow` (Schlick), `sin`, `cos`, `atan2`, `asin` and vector length are injected.
  - Float rounding, inf and NaN are not modelled. A zero divisor in a rectangle hit is a miss. The slab test's zero-direction case is modelled on exact reals.
- `drand48` and `rand` are injected streams. The static initialisation of the Perlin tables (texture.h:133-136) is not modelled; the tables are taken as generated by `PerlinGeneratePerm`.
- `Images.Render`, `Images.WriteRow`: these require `nSamples != 0`, because `col /= 0` gives inf or NaN, whose `char` conversion is undefined. They also require non-negative resolutions, and they do not model the 32-bit `int` overflow of pixel indices.
- `Bvh.NewBVHNode`: requires `n >= 1`. For `n == 0` the source recurses without end.
- `Parallel.ParallelForEach`: requires `0 <= first <= last`. For `first > last` the unsigned length wraps, and the block loops count with `unsigned long`.
- `HitProperties.HitOnRay`: stated for scenes whose rotations are rigid (sin^2 + cos^2 = 1). The constructor's `sin` and `cos` are injected, so the model cannot derive this.
- `Integrator.Color`: the `rand()` draws of each bounce are indexed by depth, not by how many draws came before.
- `CommandLine.ReadCommandLine`: `stoi` is injected, and its exception on a non-number is the `NotANumber` outcome. `std::out_of_range` is folded into the same outcome.
- `Materials.RandomInUnitSphere`: the do-while loop is bounded by the attempts the injected draws provide. A run in which no attempt is accepted is not modelled.
- `Media.FlightDistance`: `-log(drand48())` is injected as a non-negative value.
- `Hitables.WellFormed`: requires a positive density in every medium. For density 0 the source divides by zero, and for a negative one the flight distance is negative; neither scene is modelled.
- `Textures.TextureWellFormed`: requires an image texture with nx >= 1 and ny >= 1. For an empty image the source's clamps read outside the pixel buffer, which is undefined behaviour.
- `Materials.Candidate`: reads its three draws for x, y and z in that order. The source passes three `randomFloat()` calls to one constructor, whose evaluation order C++ leaves unspecified.
- `Hitables.WellFormed`: requires a nonzero sphere radius. A sphere of radius 0 is never hit by the source, because its discriminant is at most 0; the model keeps the requirement so that the normal's division by the radius is always defined.
- `Hitables.WellFormed`: requires time0 != time1 for a moving sphere. For equal times the source's center divides by zero and is inf or NaN, which is not modelled.
- `Hitables.WellFormed`: requires x0 != x1 and y0 != y1 (and the other planes' extents) for a rectangle. For equal extents the source's u and v divide by zero, giving inf or NaN, which is not modelled.
- `Materials.MaterialWellFormed`: requires a Dielectric's refIdx to be neither 0 nor -1. For 0 the source's eta 1 / refIDX is inf, and for -1 schlick's r0 divides by zero; inf and NaN are not modelled.
